/**
 The blob is copied to runtime memory and run there.  A copy at distance d, with its slots, simulates the
 original instruction by instruction: only the program counter and the return address it pushes are shifted.
 */
module Relocation {
  import opened Words
  import opened Machine
  import opened Shim

  ghost predicate SameRegisters(m: Cpu, m': Cpu) {
    m' == m.(pc := m'.pc, mem := m'.mem)
  }

  /** Memories agree outside both blobs and one cell, and the copied slot holds what the original holds. */
  ghost predicate SameMemory(base: int, d: int, k: Kind, q: int, mem: Memory, mem': Memory) {
    && (forall a :: !InBlob(base, a) && !InBlob(base + d, a) && a != q ==> Load(mem', a) == Load(mem, a))
    && Load(mem', base + d + SlotOffset(k)) == Load(mem, base + SlotOffset(k))
  }

  /** m' is the copy's counterpart of m. */
  ghost predicate Moved(base: int, d: int, k: Kind, q: int, m: Cpu, m': Cpu) {
    && SameRegisters(m, m')
    && m'.pc == (if InCode(base, m.pc) then m.pc + d else m.pc)
    && SameMemory(base, d, k, q, m.mem, m'.mem)
  }

  predicate ReadsMemory(i: Instr) {
    i.Pop? || i.LoadStack? || i.LoadRel? || i.Ret?
  }

  predicate WritesMemory(i: Instr) {
    i.Push? || i.PushFq? || i.StoreStack? || i.CallReg?
  }

  /** The cell a reading or writing instruction uses. */
  function Cell(i: Instr, m: Cpu): int {
    match i
    case LoadStack(_, offset) => Wrap(m.rsp + offset)
    case StoreStack(offset, _) => Wrap(m.rsp + offset)
    case LoadRel(_, disp) => m.pc + 1 + disp
    case Pop(_) => m.rsp
    case Ret => m.rsp
    case _ => Wrap(m.rsp - 8)
  }

  predicate Clear(base: int, d: int, a: int) {
    !InBlob(base, a) && !InBlob(base + d, a)
  }

  /** The instruction uses a cell that is related on both sides. */
  ghost predicate CellOk(base: int, d: int, i: Instr, m: Cpu, m': Cpu) {
    && (ReadsMemory(i) ==> Load(m'.mem, Cell(i, m')) == Load(m.mem, Cell(i, m)))
    && (WritesMemory(i) ==> Clear(base, d, Cell(i, m)))
  }

  lemma WriteMoves(base: int, d: int, k: Kind, q: int, mem: Memory, mem': Memory, a: int, w: Word, w': Word)
    requires SameMemory(base, d, k, q, mem, mem') && Clear(base, d, a) && (w == w' || a == q)
    ensures SameMemory(base, d, k, q, mem[a := w], mem'[a := w'])
  {
    assert InBlob(base, base + SlotOffset(k)) && InBlob(base + d, base + d + SlotOffset(k));
  }

  function Written(i: Instr, m: Cpu): Word {
    match i
    case Push(r) => m.Get(r)
    case StoreStack(_, r) => m.Get(r)
    case PushFq => m.flags.Pack()
    case _ => 0
  }

  /** The same instruction on both sides keeps registers related, if what it reads is... */
  lemma ReadMoves(i: Instr, m: Cpu, m': Cpu)
    requires SameRegisters(m, m') && ReadsMemory(i) && Load(m'.mem, Cell(i, m')) == Load(m.mem, Cell(i, m))
    ensures SameRegisters(m.Exec(i), m'.Exec(i))
  {
  }

  lemma StoreMoves(i: Instr, m: Cpu, m': Cpu)
    requires SameRegisters(m, m') && WritesMemory(i) && !i.CallReg?
    ensures SameRegisters(m.Exec(i), m'.Exec(i))
  {
  }

  lemma RegisterMoves(i: Instr, m: Cpu, m': Cpu)
    requires SameRegisters(m, m') && !ReadsMemory(i) && !WritesMemory(i)
    ensures SameRegisters(m.Exec(i), m'.Exec(i))
  {
    if i.SubRsp? || i.AddRsp? || i.AndImm? || i.TestImm32? {
      ArithmeticMoves(i, m, m');
    }
  }

  lemma ArithmeticMoves(i: Instr, m: Cpu, m': Cpu)
    requires SameRegisters(m, m') && (i.SubRsp? || i.AddRsp? || i.AndImm? || i.TestImm32?)
    ensures SameRegisters(m.Exec(i), m'.Exec(i))
  {
  }

  /** ... and writes the same word to the same cell, if any. */
  lemma ExecWrites(i: Instr, m: Cpu, m': Cpu)
    requires SameRegisters(m, m') && !i.CallReg?
    ensures !WritesMemory(i) ==> m.Exec(i).mem == m.mem && m'.Exec(i).mem == m'.mem
    ensures WritesMemory(i) ==>
      && m.Exec(i).mem == m.mem[Cell(i, m) := Written(i, m)]
      && m'.Exec(i).mem == m'.mem[Cell(i, m) := Written(i, m)]
  {
  }

  lemma ExecMoves(base: int, d: int, k: Kind, q: int, i: Instr, m: Cpu, m': Cpu)
    requires SameRegisters(m, m') && SameMemory(base, d, k, q, m.mem, m'.mem)
    requires CellOk(base, d, i, m, m') && !i.CallReg?
    ensures SameRegisters(m.Exec(i), m'.Exec(i))
    ensures SameMemory(base, d, k, q, m.Exec(i).mem, m'.Exec(i).mem)
  {
    ExecWrites(i, m, m');
    if ReadsMemory(i) {
      ReadMoves(i, m, m');
    } else if WritesMemory(i) {
      StoreMoves(i, m, m');
      WriteMoves(base, d, k, q, m.mem, m'.mem, Cell(i, m), Written(i, m), Written(i, m));
    } else {
      RegisterMoves(i, m, m');
    }
  }

  /** Both sides stand at point p, in registers and memory related. */
  ghost predicate Abreast(base: int, d: int, k: Kind, e: Cpu, p: int, m: Cpu, m': Cpu) {
    && IsPoint(k, p) && m.pc == Address(base, k, p) && m'.pc == m.pc + d
    && m.rsp == StackAt(k, e, p)
    && SameRegisters(m, m') && SameMemory(base, d, k, ServiceRsp(k, e), m.mem, m'.mem)
  }

  ghost predicate BothOk(base: int, d: int, k: Kind, e: Cpu, e': Cpu) {
    EntryOk(base, k, e) && EntryOk(base + d, k, e') && SameRegisters(e, e')
  }

  lemma PushCells(base: int, d: int, k: Kind, e: Cpu, e': Cpu, p: int, m: Cpu, m': Cpu)
    requires BothOk(base, d, k, e, e') && Abreast(base, d, k, e, p, m, m') && (p < 2 || p == 3)
    ensures CellOk(base, d, InstrAt(k, p), m, m')
  {
    assert Wrap(m.rsp - 8) == m.rsp - 8;
    assert Clear(base, d, m.rsp - 8);
  }

  lemma PrologueCells(base: int, d: int, k: Kind, e: Cpu, e': Cpu, p: int, m: Cpu, m': Cpu)
    requires BothOk(base, d, k, e, e') && Abreast(base, d, k, e, p, m, m') && p < 10 && p != 4
    ensures CellOk(base, d, InstrAt(k, p), m, m')
  {
    if p < 2 || p == 3 {
      PushCells(base, d, k, e, e', p, m, m');
    } else {
      assert !ReadsMemory(InstrAt(k, p)) && !WritesMemory(InstrAt(k, p));
    }
  }

  lemma ArgumentCell(base: int, d: int, k: Kind, e: Cpu, e': Cpu, m: Cpu, m': Cpu)
    requires BothOk(base, d, k, e, e') && Abreast(base, d, k, e, 10, m, m')
    ensures CellOk(base, d, InstrAt(k, 10), m, m')
  {
    assert Wrap(m.rsp + 0x70) == e.rsp + 0x28;
    assert Clear(base, d, e.rsp + 0x28) && e.rsp + 0x28 != ServiceRsp(k, e);
  }

  lemma ForwardedCell(base: int, d: int, k: Kind, e: Cpu, e': Cpu, m: Cpu, m': Cpu)
    requires BothOk(base, d, k, e, e') && Abreast(base, d, k, e, 11, m, m')
    ensures CellOk(base, d, InstrAt(k, 11), m, m')
  {
    assert Wrap(m.rsp + 0x20) == e.rsp - 0x28;
    assert Clear(base, d, e.rsp - 0x28);
  }

  lemma SlotCell(base: int, d: int, k: Kind, e: Cpu, e': Cpu, p: int, m: Cpu, m': Cpu)
    requires BothOk(base, d, k, e, e') && Abreast(base, d, k, e, p, m, m') && p == 12
    ensures CellOk(base, d, InstrAt(k, p), m, m')
  {
  }

  lemma EpilogueCells(base: int, d: int, k: Kind, e: Cpu, e': Cpu, p: int, m: Cpu, m': Cpu)
    requires BothOk(base, d, k, e, e') && Abreast(base, d, k, e, p, m, m') && 14 <= p
    ensures CellOk(base, d, InstrAt(k, p), m, m')
  {
    if p >= 21 {
      assert Clear(base, d, m.rsp) && m.rsp != ServiceRsp(k, e);
    } else {
      assert !ReadsMemory(InstrAt(k, p)) && !WritesMemory(InstrAt(k, p));
    }
  }

  /** One instruction of the original against one of the copy, other than the call. */
  lemma StepMoves(base: int, d: int, k: Kind, e: Cpu, e': Cpu, p: int, m: Cpu, m': Cpu)
    requires BothOk(base, d, k, e, e') && Abreast(base, d, k, e, p, m, m') && p != 13
    requires p == 4 ==> m'.Top() == m.Top()
    ensures InCode(base, m.pc) && InCode(base + d, m'.pc)
    ensures SameRegisters(Step(base, m), Step(base + d, m'))
    ensures SameMemory(base, d, k, ServiceRsp(k, e), Step(base, m).mem, Step(base + d, m').mem)
  {
    FetchAtPoint(base, k, p);
    FetchAtPoint(base + d, k, p);
    var i := InstrAt(k, p);
    assert CellOk(base, d, i, m, m') by {
      if p == 4 {
        assert i == Pop(RSI);
      } else if p < 10 {
        PrologueCells(base, d, k, e, e', p, m, m');
      } else if p == 10 {
        ArgumentCell(base, d, k, e, e', m, m');
      } else if p == 11 {
        ForwardedCell(base, d, k, e, e', m, m');
      } else if p == 12 {
        SlotCell(base, d, k, e, e', p, m, m');
      } else {
        EpilogueCells(base, d, k, e, e', p, m, m');
      }
    }
    ExecMoves(base, d, k, ServiceRsp(k, e), i, m, m');
  }

  lemma CallExecMoves(base: int, d: int, k: Kind, q: int, m: Cpu, m': Cpu)
    requires SameRegisters(m, m') && SameMemory(base, d, k, q, m.mem, m'.mem)
    requires Wrap(m.rsp - 8) == q && Clear(base, d, q)
    ensures var x, x' := m.Exec(CallReg(RAX)), m'.Exec(CallReg(RAX));
      SameRegisters(x, x') && x'.pc == x.pc && SameMemory(base, d, k, q, x.mem, x'.mem)
  {
    WriteMoves(base, d, k, q, m.mem, m'.mem, q, Wrap(m.pc + 1), Wrap(m'.pc + 1));
  }

  /** The call enters the same service with the same registers; the pushed return address alone is shifted. */
  lemma CallMoves(base: int, d: int, k: Kind, e: Cpu, e': Cpu, o: Outcome, m: Cpu, m': Cpu)
    requires BothOk(base, d, k, e, e') && Abreast(base, d, k, e, 13, m, m')
    requires Load(e'.mem, base + d + SlotOffset(k)) == Load(e.mem, base + SlotOffset(k))
    requires At(base, k, e, o, 13, m)
    ensures InCode(base, m.pc) && InCode(base + d, m'.pc)
    ensures Moved(base, d, k, ServiceRsp(k, e), Step(base, m), Step(base + d, m'))
    ensures !InBlob(base, Step(base, m).pc) && !InBlob(base + d, Step(base + d, m').pc)
  {
    CallStep(base, k, e, o, m);
    FetchAtPoint(base + d, k, 13);
    assert m.rax == Load(e.mem, base + SlotOffset(k));
    CallExecMoves(base, d, k, ServiceRsp(k, e), m, m');
  }

  lemma ReturnMoves(base: int, d: int, k: Kind, e: Cpu, e': Cpu, o: Outcome, m: Cpu, m': Cpu)
    requires BothOk(base, d, k, e, e') && Abreast(base, d, k, e, 23, m, m') && e'.Top() == e.Top()
    requires At(base, k, e, o, 23, m) && Load(m'.mem, e.rsp) == e'.Top()
    ensures InCode(base, m.pc) && InCode(base + d, m'.pc)
    ensures Moved(base, d, k, ServiceRsp(k, e), Step(base, m), Step(base + d, m'))
    ensures !InBlob(base, Step(base, m).pc) && !InBlob(base + d, Step(base + d, m').pc)
  {
    StepMoves(base, d, k, e, e', 23, m, m');
    FetchAtPoint(base, k, 23);
    FetchAtPoint(base + d, k, 23);
  }

  /** The copy is entered in the state of the original, but for the shift, with its slot copied. */
  ghost predicate CopyEntered(base: int, d: int, k: Kind, e: Cpu, e': Cpu) {
    && BothOk(base, d, k, e, e') && e'.Top() == e.Top()
    && Load(e'.mem, base + d + SlotOffset(k)) == Load(e.mem, base + SlotOffset(k))
  }

  /** Any entry of the original has its counterpart at any distance where the copy is clear of stack and targets. */
  lemma CopyMayBeEntered(base: int, d: int, k: Kind, e: Cpu) returns (e': Cpu)
    requires EntryOk(base, k, e) && 0 <= base + d && base + d + BLOB_SIZE < TWO_64
    requires base + d + BLOB_SIZE <= e.rsp - 0x58 || e.rsp + 0x30 <= base + d
    requires !InBlob(base + d, e.Top()) && !InBlob(base + d, Load(e.mem, base + SlotOffset(k)))
    ensures CopyEntered(base, d, k, e, e') && SameMemory(base, d, k, ServiceRsp(k, e), e.mem, e'.mem)
    ensures e'.pc == e.pc + d
  {
    var slot := base + d + SlotOffset(k);
    assert InBlob(base + d, slot);
    e' := e.(pc := e.pc + d, mem := e.mem[slot := Load(e.mem, base + SlotOffset(k))]);
  }

  /** The two assertions, side by side. */
  ghost predicate BothAt(base: int, d: int, k: Kind, e: Cpu, e': Cpu, o: Outcome, p: int, m: Cpu, m': Cpu) {
    At(base, k, e, o, p, m) && At(base + d, k, e', o, p, m')
  }

  lemma BothAdvance(base: int, d: int, k: Kind, e: Cpu, e': Cpu, o: Outcome, p: int, m: Cpu, m': Cpu)
    requires BothOk(base, d, k, e, e') && BothAt(base, d, k, e, e', o, p, m, m') && p != 13 && p != 23
    ensures InCode(base, m.pc) && InCode(base + d, m'.pc)
    ensures BothAt(base, d, k, e, e', o, Successor(k, e, p), Step(base, m), Step(base + d, m'))
  {
    assert Successor(k, e', p) == Successor(k, e, p);
    assert InCode(base, m.pc) && At(base, k, e, o, Successor(k, e, p), Step(base, m)) by {
      StepAdvances(base, k, e, o, p, m);
    }
    assert InCode(base + d, m'.pc) && At(base + d, k, e', o, Successor(k, e', p), Step(base + d, m')) by {
      StepAdvances(base + d, k, e', o, p, m');
    }
  }

  lemma BothAtFacts(base: int, d: int, k: Kind, e: Cpu, e': Cpu, o: Outcome, p: int, m: Cpu, m': Cpu)
    requires BothOk(base, d, k, e, e') && BothAt(base, d, k, e, e', o, p, m, m')
    ensures IsPoint(k, p) && m.pc == Address(base, k, p) && m'.pc == m.pc + d && InCode(base, m.pc)
    ensures m.rsp == StackAt(k, e, p)
    ensures p == 4 ==> m'.Top() == m.Top()
    ensures p == 23 ==> Load(m'.mem, e.rsp) == e'.Top()
  {
    FetchAtPoint(base, k, p);
    assert SavedFlags(e') == SavedFlags(e);
  }

  /** Both sides stand at point p, each with its assertion, in registers and memory related. */
  ghost predicate Lockstep(base: int, d: int, k: Kind, e: Cpu, e': Cpu, o: Outcome, p: int, m: Cpu, m': Cpu) {
    && BothAt(base, d, k, e, e', o, p, m, m')
    && SameRegisters(m, m') && SameMemory(base, d, k, ServiceRsp(k, e), m.mem, m'.mem)
  }

  lemma LockstepAdvances(base: int, d: int, k: Kind, e: Cpu, e': Cpu, o: Outcome, p: int, m: Cpu, m': Cpu)
    requires CopyEntered(base, d, k, e, e') && Lockstep(base, d, k, e, e', o, p, m, m') && p != 13 && p != 23
    ensures InCode(base, m.pc) && InCode(base + d, m'.pc)
    ensures Lockstep(base, d, k, e, e', o, Successor(k, e, p), Step(base, m), Step(base + d, m'))
  {
    BothAtFacts(base, d, k, e, e', o, p, m, m');
    StepMoves(base, d, k, e, e', p, m, m');
    BothAdvance(base, d, k, e, e', o, p, m, m');
  }

  /** At the call and at the return both sides leave their code in one step. */
  lemma LockstepLeaves(base: int, d: int, k: Kind, e: Cpu, e': Cpu, o: Outcome, p: int, m: Cpu, m': Cpu, n: nat)
    requires CopyEntered(base, d, k, e, e') && Lockstep(base, d, k, e, e', o, p, m, m') && (p == 13 || p == 23)
    requires n > 0
    ensures Moved(base, d, k, ServiceRsp(k, e), Steps(base, m, n), Steps(base + d, m', n))
  {
    BothAtFacts(base, d, k, e, e', o, p, m, m');
    if p == 13 {
      CallMoves(base, d, k, e, e', o, m, m');
    } else {
      ReturnMoves(base, d, k, e, e', o, m, m');
    }
    StepsOnce(base, m, n);
    StepsOnce(base + d, m', n);
  }

  lemma LockstepMoved(base: int, d: int, k: Kind, e: Cpu, e': Cpu, o: Outcome, p: int, m: Cpu, m': Cpu)
    requires CopyEntered(base, d, k, e, e') && Lockstep(base, d, k, e, e', o, p, m, m')
    ensures Moved(base, d, k, ServiceRsp(k, e), m, m')
  {
    BothAtFacts(base, d, k, e, e', o, p, m, m');
  }

  /** After any number of instructions of either half, the copy is where the original is. */
  lemma {:induction false} CopySimulates(base: int, d: int, k: Kind, e: Cpu, e': Cpu, o: Outcome, p: int,
                                         m: Cpu, m': Cpu, n: nat)
    requires CopyEntered(base, d, k, e, e') && Lockstep(base, d, k, e, e', o, p, m, m')
    ensures Moved(base, d, k, ServiceRsp(k, e), Steps(base, m, n), Steps(base + d, m', n))
    decreases n
  {
    if n == 0 {
      LockstepMoved(base, d, k, e, e', o, p, m, m');
    } else if p == 13 || p == 23 {
      LockstepLeaves(base, d, k, e, e', o, p, m, m', n);
    } else {
      LockstepAdvances(base, d, k, e, e', o, p, m, m');
      CopySimulates(base, d, k, e, e', o, Successor(k, e, p), Step(base, m), Step(base + d, m'), n - 1);
    }
  }

  /** First half: entered alike, the copy enters the same service alike. */
  lemma CopyCallsAlike(base: int, d: int, k: Kind, e: Cpu, e': Cpu, n: nat)
    requires n >= 24 && CopyEntered(base, d, k, e, e') && SameMemory(base, d, k, ServiceRsp(k, e), e.mem, e'.mem)
    ensures Moved(base, d, k, ServiceRsp(k, e), Steps(base, e, n), Steps(base + d, e', n))
  {
    var anything := OutcomeOf(e);
    EntryIsFirstPoint(base, k, e, anything);
    EntryIsFirstPoint(base + d, k, e', anything);
    CopySimulates(base, d, k, e, e', anything, 0, e, e', n);
  }

  /** Second half: resumed alike, the copy returns alike. */
  lemma CopyReturnsAlike(base: int, d: int, k: Kind, e: Cpu, e': Cpu, t: Cpu, t': Cpu, n: nat)
    requires n >= 24 && CopyEntered(base, d, k, e, e')
    requires BothAt(base, d, k, e, e', OutcomeOf(t), 14, t, t')
    requires SameRegisters(t, t') && SameMemory(base, d, k, ServiceRsp(k, e), t.mem, t'.mem)
    ensures Moved(base, d, k, ServiceRsp(k, e), Steps(base, t, n), Steps(base + d, t', n))
    ensures ShimReturned(k, e, OutcomeOf(t), Steps(base, t, n))
    ensures Steps(base + d, t', n).pc == Steps(base, t, n).pc == e.Top()
  {
    CopySimulates(base, d, k, e, e', OutcomeOf(t), 14, t, t', n);
    RunsToExit(base, k, e, OutcomeOf(t), 14, t, n);
  }

  /**
   Main result: the copy's two halves, around a service that treats both alike, end in the registers, the
   control flow and (outside the two blobs and the dead call cell) the memory of the original's.
   */
  lemma CopyBehavesAlike(base: int, d: int, k: Kind, e: Cpu, e': Cpu, t: Cpu, t': Cpu, n: nat)
    requires n >= 24 && CopyEntered(base, d, k, e, e')
    requires SameMemory(base, d, k, ServiceRsp(k, e), e.mem, e'.mem)
    requires ServiceReturned(k, e, Steps(base, e, n), t) && ServiceReturned(k, e', Steps(base + d, e', n), t')
    requires SameRegisters(t, t') && SameMemory(base, d, k, ServiceRsp(k, e), t.mem, t'.mem)
    ensures Moved(base, d, k, ServiceRsp(k, e), Steps(base, e, n), Steps(base + d, e', n))
    ensures t'.pc == t.pc + d
    ensures Moved(base, d, k, ServiceRsp(k, e), Steps(base, t, n), Steps(base + d, t', n))
    ensures Steps(base + d, t', n).pc == Steps(base, t, n).pc == e.Top()
  {
    CopyCallsAlike(base, d, k, e, e', n);
    ResumesAfterCall(base, k, e, t, n);
    ResumesAfterCall(base + d, k, e', t', n);
    assert OutcomeOf(t') == OutcomeOf(t);
    CopyReturnsAlike(base, d, k, e, e', t, t', n);
  }
}
