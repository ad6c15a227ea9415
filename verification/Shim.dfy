/**
 The relocatable blob of runtime-service shims: three routines that clear CR0.WP with interrupts
 off, forward to the saved service and put CR0.WP and IF back, followed by the three service slots.
 A Floyd-style assertion at every instruction carries the proof; nothing is assumed of the service
 beyond the x64 calling convention (section 2.3.4 of the UEFI Specification).
 */
module Shim {
  import opened Words
  import opened Machine

  datatype Kind = SetVariable | GetVariable | GetNextVariableName

  const BLOB_SIZE: int := 94

  /** Offset of each routine's first instruction from the start of the blob. */
  function EntryOffset(k: Kind): int {
    match k
    case SetVariable => 0
    case GetVariable => 24
    case GetNextVariableName => 48
  }

  /** Offset of the 8-byte slot that holds the saved service. */
  function SlotOffset(k: Kind): int {
    match k
    case GetNextVariableName => 70
    case GetVariable => 78
    case SetVariable => 86
  }

  /** Bytes each routine reserves below its saved registers. */
  function FrameSize(k: Kind): int {
    if k.GetNextVariableName? then 0x28 else 0x38
  }

  /** How many arguments the service takes on the stack: the fifth, for two of the three. */
  function StackArgs(k: Kind): int {
    if k.GetNextVariableName? then 0 else 1
  }

  function Call(i: int, k: Kind): Instr {
    LoadRel(RAX, SlotOffset(k) - (EntryOffset(k) + i + 1))
  }

  /** RtWpDisableSetVariable and RtWpDisableGetVariable, which differ in their slot only. */
  function FiveArgumentListing(k: Kind, i: int): Instr {
    match i
    case 0 => Push(RSI)
    case 1 => Push(RBX)
    case 2 => SubRsp(0x38)
    case 3 => PushFq
    case 4 => Pop(RSI)
    case 5 => Cli
    case 6 => MovFromCr0(RBX)
    case 7 => MovReg(RAX, RBX)
    case 8 => AndImm(RAX, WP_CLEAR_MASK)
    case 9 => MovToCr0(RAX)
    case 10 => LoadStack(RAX, 0x70)
    case 11 => StoreStack(0x20, RAX)
    case 12 => Call(12, k)
    case 13 => CallReg(RAX)
    case 14 => TestImm32(RBX, WP_MASK)
    case 15 => Je(1)
    case 16 => MovToCr0(RBX)
    case 17 => TestImm32(RSI, IF_MASK)
    case 18 => Je(1)
    case 19 => Sti
    case 20 => AddRsp(0x38)
    case 21 => Pop(RBX)
    case 22 => Pop(RSI)
    case _ => Ret
  }

  /** RtWpDisableGetNextVariableName. */
  function ThreeArgumentListing(i: int): Instr {
    match i
    case 0 => Push(RSI)
    case 1 => Push(RBX)
    case 2 => SubRsp(0x28)
    case 3 => PushFq
    case 4 => Pop(RSI)
    case 5 => Cli
    case 6 => MovFromCr0(RBX)
    case 7 => MovReg(RAX, RBX)
    case 8 => AndImm(RAX, WP_CLEAR_MASK)
    case 9 => MovToCr0(RAX)
    case 10 => Call(10, GetNextVariableName)
    case 11 => CallReg(RAX)
    case 12 => TestImm32(RBX, WP_MASK)
    case 13 => Je(1)
    case 14 => MovToCr0(RBX)
    case 15 => TestImm32(RSI, IF_MASK)
    case 16 => Je(1)
    case 17 => Sti
    case 18 => AddRsp(0x28)
    case 19 => Pop(RBX)
    case 20 => Pop(RSI)
    case _ => Ret
  }

  /** The instruction at an offset into the blob. */
  function Fetch(offset: int): Instr
    requires 0 <= offset < 70
  {
    if offset < 24 then FiveArgumentListing(SetVariable, offset)
    else if offset < 48 then FiveArgumentListing(GetVariable, offset - 24)
    else ThreeArgumentListing(offset - 48)
  }

  predicate InCode(base: int, pc: int) {
    base <= pc < base + 70
  }

  predicate InBlob(base: int, a: int) {
    base <= a < base + BLOB_SIZE
  }

  function Step(base: int, m: Cpu): Cpu
    requires InCode(base, m.pc)
  {
    m.Exec(Fetch(m.pc - base))
  }

  /** A point of a routine, numbered as in the five-argument listing; the other one skips 10 and 11. */
  predicate IsPoint(k: Kind, p: int) {
    0 <= p < 24 && (k.GetNextVariableName? ==> p != 10 && p != 11)
  }

  function Address(base: int, k: Kind, p: int): int {
    base + EntryOffset(k) + if k.GetNextVariableName? && p >= 12 then p - 2 else p
  }

  /**
   The blob's layout: the routines, then the slots of GetNextVariableName, GetVariable and SetVariable in this order;
   no two of either share an address.
   */
  lemma BlobLayout(k: Kind, k': Kind)
    ensures 0 <= EntryOffset(k) && EntryOffset(k) + (if k.GetNextVariableName? then 22 else 24) <= 70
    ensures 70 <= SlotOffset(k) && SlotOffset(k) + 8 <= BLOB_SIZE
    ensures SlotOffset(GetNextVariableName) < SlotOffset(GetVariable) < SlotOffset(SetVariable)
    ensures k != k' ==> SlotOffset(k) + 8 <= SlotOffset(k') || SlotOffset(k') + 8 <= SlotOffset(k)
    ensures EntryOffset(SetVariable) + 24 <= EntryOffset(GetVariable)
    ensures EntryOffset(GetVariable) + 24 <= EntryOffset(GetNextVariableName)
  {
  }

  /** The state in which a caller enters a shim. */
  ghost predicate EntryOk(base: int, k: Kind, e: Cpu) {
    && e.pc == base + EntryOffset(k)
    && 0 <= base && base + BLOB_SIZE < TWO_64
    && e.rsp % 16 == 8
    && 0x58 <= e.rsp && e.rsp + 0x30 <= TWO_64
    && (base + BLOB_SIZE <= e.rsp - 0x58 || e.rsp + 0x30 <= base)
    && !InBlob(base, e.Top())
    && !InBlob(base, Load(e.mem, base + SlotOffset(k)))
  }

  /** First address past what the convention gives the shim: return address, home area, stack arguments. */
  function FrameTop(k: Kind, e: Cpu): int {
    e.rsp + 0x28 + 8 * StackArgs(k)
  }

  /** RSP at each point. */
  function StackAt(k: Kind, e: Cpu, p: int): int {
    if p == 0 || p == 23 then e.rsp
    else if p == 1 || p == 22 then e.rsp - 8
    else if p == 2 || p == 21 then e.rsp - 0x10
    else if p == 4 then e.rsp - 0x18 - FrameSize(k)
    else e.rsp - 0x10 - FrameSize(k)
  }

  /** RFLAGS as the shim pushes them: "sub rsp" has just cleared ZF. */
  function SavedFlags(e: Cpu): Word {
    e.flags.(zf := false).Pack()
  }

  /** What the service left behind when it returned to the shim. */
  datatype Outcome = Outcome(
    rax: Word, rcx: Word, rdx: Word, r8: Word, r9: Word, cr0: Word, flags: ValidFlags)

  function RestoredCr0(e: Cpu, o: Outcome): Word {
    if WriteProtect(e.cr0) then e.cr0 else o.cr0
  }

  ghost predicate RegistersAt(base: int, k: Kind, e: Cpu, o: Outcome, p: int, m: Cpu) {
    && (p <= 13 ==> m.rcx == e.rcx && m.rdx == e.rdx && m.r8 == e.r8 && m.r9 == e.r9)
    && (p <= 6 || 22 <= p ==> m.rbx == e.rbx)
    && (7 <= p <= 21 ==> m.rbx == e.cr0)
    && (p <= 4 || 23 <= p ==> m.rsi == e.rsi)
    && (5 <= p <= 22 ==> m.rsi == SavedFlags(e))
    && (p == 8 ==> m.rax == e.cr0)
    && (p == 9 ==> m.rax == ClearWp(e.cr0))
    && (p == 11 ==> m.rax == Load(e.mem, e.rsp + 0x28))
    && (p == 13 ==> m.rax == Load(e.mem, base + SlotOffset(k)))
    && (14 <= p ==> m.rax == o.rax && m.rcx == o.rcx && m.rdx == o.rdx && m.r8 == o.r8 && m.r9 == o.r9)
  }

  ghost predicate ControlAt(k: Kind, e: Cpu, o: Outcome, p: int, m: Cpu) {
    && (p <= 9 ==> m.cr0 == e.cr0)
    && (10 <= p <= 13 ==> m.cr0 == ClearWp(e.cr0))
    && (14 <= p <= 16 ==> m.cr0 == o.cr0)
    && (17 <= p ==> m.cr0 == RestoredCr0(e, o))
    && SameOtherFlags(if p <= 13 then e.flags else o.flags, m.flags)
    && (p <= 5 ==> m.flags.intr == e.flags.intr)
    && (6 <= p <= 13 ==> !m.flags.intr)
    && (14 <= p <= 19 ==> m.flags.intr == o.flags.intr)
    && (20 <= p ==> m.flags.intr == (e.flags.intr || o.flags.intr))
    && (p <= 2 ==> m.flags == e.flags)
    && (p == 3 ==> m.flags == e.flags.(zf := false))
    && (p == 15 ==> (m.flags.zf <==> !WriteProtect(e.cr0)))
    && (p == 16 ==> WriteProtect(e.cr0))
    && (p == 18 ==> (m.flags.zf <==> !e.flags.intr))
    && (p == 19 ==> e.flags.intr)
  }

  /** The shim's own stack cells that a service must leave alone, plus the return address it needs. */
  ghost predicate MemoryAt(base: int, k: Kind, e: Cpu, p: int, m: Cpu) {
    && Load(m.mem, e.rsp) == e.Top()
    && (1 <= p <= 22 ==> Load(m.mem, e.rsp - 8) == e.rsi)
    && (2 <= p <= 21 ==> Load(m.mem, e.rsp - 0x10) == e.rbx)
    && (p == 4 ==> Load(m.mem, m.rsp) == SavedFlags(e))
    && (!k.GetNextVariableName? && p <= 10 ==> Load(m.mem, e.rsp + 0x28) == Load(e.mem, e.rsp + 0x28))
    && (!k.GetNextVariableName? && 12 <= p <= 13 ==> Load(m.mem, m.rsp + 0x20) == Load(e.mem, e.rsp + 0x28))
    && (p <= 12 ==> Load(m.mem, base + SlotOffset(k)) == Load(e.mem, base + SlotOffset(k)))
  }

  /** The assertion at point p of a shim entered in state e; o is read from p == 14 on only. */
  ghost predicate At(base: int, k: Kind, e: Cpu, o: Outcome, p: int, m: Cpu) {
    && IsPoint(k, p)
    && m.pc == Address(base, k, p)
    && m.rsp == StackAt(k, e, p)
    && RegistersAt(base, k, e, o, p, m)
    && ControlAt(k, e, o, p, m)
    && MemoryAt(base, k, e, p, m)
  }

  /** Where control goes from a point other than the call (13) and the return (23). */
  function Successor(k: Kind, e: Cpu, p: int): int {
    if p == 9 && k.GetNextVariableName? then 12
    else if p == 15 && !WriteProtect(e.cr0) then 17
    else if p == 18 && !e.flags.intr then 20
    else p + 1
  }

  /** The instruction at a point. */
  function InstrAt(k: Kind, p: int): Instr {
    if k.GetNextVariableName? then ThreeArgumentListing(if p >= 12 then p - 2 else p)
    else FiveArgumentListing(k, p)
  }

  lemma FetchAtPoint(base: int, k: Kind, p: int)
    requires IsPoint(k, p)
    ensures InCode(base, Address(base, k, p))
    ensures Fetch(Address(base, k, p) - base) == InstrAt(k, p)
  {
  }

  lemma OnlyPoint13Calls(k: Kind, p: int)
    requires IsPoint(k, p)
    ensures InstrAt(k, p).CallReg? <==> p == 13
    ensures InstrAt(k, p).Ret? <==> p == 23
  {
  }

  /** Nothing changed but the 0x50 bytes below the entry RSP, the shim's own part of the stack. */
  ghost predicate OwnFrameOnly(e: Cpu, mem: Memory, mem': Memory) {
    forall a {:trigger Load(mem', a)} :: !(e.rsp - 0x50 <= a < e.rsp) ==> Load(mem', a) == Load(mem, a)
  }

  /** m' is at the successor of p, and differs from m in the shim's own frame only. */
  ghost predicate Advances(base: int, k: Kind, e: Cpu, o: Outcome, p: int, m: Cpu, m': Cpu) {
    && At(base, k, e, o, Successor(k, e, p), m')
    && OwnFrameOnly(e, m.mem, m'.mem)
  }

  lemma SavesRsi(base: int, k: Kind, e: Cpu, o: Outcome, m: Cpu)
    requires EntryOk(base, k, e) && At(base, k, e, o, 0, m)
    ensures Advances(base, k, e, o, 0, m, m.Exec(InstrAt(k, 0)))
  {
    assert Wrap(m.rsp - 8) == m.rsp - 8;
  }

  lemma SavesRbx(base: int, k: Kind, e: Cpu, o: Outcome, m: Cpu)
    requires EntryOk(base, k, e) && At(base, k, e, o, 1, m)
    ensures Advances(base, k, e, o, 1, m, m.Exec(InstrAt(k, 1)))
  {
    assert Wrap(m.rsp - 8) == m.rsp - 8;
  }

  lemma Reserves(base: int, k: Kind, e: Cpu, o: Outcome, m: Cpu)
    requires EntryOk(base, k, e) && At(base, k, e, o, 2, m)
    ensures Advances(base, k, e, o, 2, m, m.Exec(InstrAt(k, 2)))
  {
  }

  lemma PushesFlags(base: int, k: Kind, e: Cpu, o: Outcome, m: Cpu)
    requires EntryOk(base, k, e) && At(base, k, e, o, 3, m)
    ensures Advances(base, k, e, o, 3, m, m.Exec(InstrAt(k, 3)))
  {
    assert Wrap(m.rsp - 8) == m.rsp - 8;
  }

  lemma PopsFlags(base: int, k: Kind, e: Cpu, o: Outcome, m: Cpu)
    requires EntryOk(base, k, e) && At(base, k, e, o, 4, m)
    ensures Advances(base, k, e, o, 4, m, m.Exec(InstrAt(k, 4)))
  {
  }

  lemma Disables(base: int, k: Kind, e: Cpu, o: Outcome, m: Cpu)
    requires EntryOk(base, k, e) && At(base, k, e, o, 5, m)
    ensures Advances(base, k, e, o, 5, m, m.Exec(InstrAt(k, 5)))
  {
  }

  lemma ReadsCr0(base: int, k: Kind, e: Cpu, o: Outcome, m: Cpu)
    requires EntryOk(base, k, e) && At(base, k, e, o, 6, m)
    ensures Advances(base, k, e, o, 6, m, m.Exec(InstrAt(k, 6)))
  {
  }

  lemma CopiesCr0(base: int, k: Kind, e: Cpu, o: Outcome, m: Cpu)
    requires EntryOk(base, k, e) && At(base, k, e, o, 7, m)
    ensures Advances(base, k, e, o, 7, m, m.Exec(InstrAt(k, 7)))
  {
  }

  lemma MasksWp(base: int, k: Kind, e: Cpu, o: Outcome, m: Cpu)
    requires EntryOk(base, k, e) && At(base, k, e, o, 8, m)
    ensures Advances(base, k, e, o, 8, m, m.Exec(InstrAt(k, 8)))
  {
    assert And(m.rax, WP_CLEAR_MASK) == ClearWp(e.cr0);
  }

  lemma ClearsWp(base: int, k: Kind, e: Cpu, o: Outcome, m: Cpu)
    requires EntryOk(base, k, e) && At(base, k, e, o, 9, m)
    ensures Advances(base, k, e, o, 9, m, m.Exec(InstrAt(k, 9)))
  {
  }

  lemma LoadsFifth(base: int, k: Kind, e: Cpu, o: Outcome, m: Cpu)
    requires EntryOk(base, k, e) && At(base, k, e, o, 10, m)
    ensures Advances(base, k, e, o, 10, m, m.Exec(InstrAt(k, 10)))
  {
    assert Wrap(m.rsp + 0x70) == e.rsp + 0x28;
  }

  lemma StoresFifth(base: int, k: Kind, e: Cpu, o: Outcome, m: Cpu)
    requires EntryOk(base, k, e) && At(base, k, e, o, 11, m)
    ensures Advances(base, k, e, o, 11, m, m.Exec(InstrAt(k, 11)))
  {
    assert Wrap(m.rsp + 0x20) == e.rsp - 0x28;
    assert base + SlotOffset(k) != e.rsp - 0x28;
  }

  lemma LoadsService(base: int, k: Kind, e: Cpu, o: Outcome, m: Cpu)
    requires EntryOk(base, k, e) && At(base, k, e, o, 12, m)
    ensures Advances(base, k, e, o, 12, m, m.Exec(InstrAt(k, 12)))
  {
  }

  lemma TestsWp(base: int, k: Kind, e: Cpu, o: Outcome, m: Cpu)
    requires EntryOk(base, k, e) && At(base, k, e, o, 14, m)
    ensures Advances(base, k, e, o, 14, m, m.Exec(InstrAt(k, 14)))
  {
    TestWpEffect(e.cr0);
  }

  lemma BranchesOnWp(base: int, k: Kind, e: Cpu, o: Outcome, m: Cpu)
    requires EntryOk(base, k, e) && At(base, k, e, o, 15, m)
    ensures Advances(base, k, e, o, 15, m, m.Exec(InstrAt(k, 15)))
  {
  }

  lemma RestoresCr0(base: int, k: Kind, e: Cpu, o: Outcome, m: Cpu)
    requires EntryOk(base, k, e) && At(base, k, e, o, 16, m)
    ensures Advances(base, k, e, o, 16, m, m.Exec(InstrAt(k, 16)))
  {
  }

  lemma TestsIf(base: int, k: Kind, e: Cpu, o: Outcome, m: Cpu)
    requires EntryOk(base, k, e) && At(base, k, e, o, 17, m)
    ensures Advances(base, k, e, o, 17, m, m.Exec(InstrAt(k, 17)))
  {
    TestIfEffect(e.flags.(zf := false));
  }

  lemma BranchesOnIf(base: int, k: Kind, e: Cpu, o: Outcome, m: Cpu)
    requires EntryOk(base, k, e) && At(base, k, e, o, 18, m)
    ensures Advances(base, k, e, o, 18, m, m.Exec(InstrAt(k, 18)))
  {
  }

  lemma Enables(base: int, k: Kind, e: Cpu, o: Outcome, m: Cpu)
    requires EntryOk(base, k, e) && At(base, k, e, o, 19, m)
    ensures Advances(base, k, e, o, 19, m, m.Exec(InstrAt(k, 19)))
  {
  }

  lemma Releases(base: int, k: Kind, e: Cpu, o: Outcome, m: Cpu)
    requires EntryOk(base, k, e) && At(base, k, e, o, 20, m)
    ensures Advances(base, k, e, o, 20, m, m.Exec(InstrAt(k, 20)))
  {
  }

  lemma RestoresRbx(base: int, k: Kind, e: Cpu, o: Outcome, m: Cpu)
    requires EntryOk(base, k, e) && At(base, k, e, o, 21, m)
    ensures Advances(base, k, e, o, 21, m, m.Exec(InstrAt(k, 21)))
  {
  }

  lemma RestoresRsi(base: int, k: Kind, e: Cpu, o: Outcome, m: Cpu)
    requires EntryOk(base, k, e) && At(base, k, e, o, 22, m)
    ensures Advances(base, k, e, o, 22, m, m.Exec(InstrAt(k, 22)))
  {
  }

  lemma PrologueAdvances(base: int, k: Kind, e: Cpu, o: Outcome, p: int, m: Cpu)
    requires EntryOk(base, k, e) && At(base, k, e, o, p, m) && 0 <= p < 7
    ensures Advances(base, k, e, o, p, m, m.Exec(InstrAt(k, p)))
  {
    match p
    case 0 => SavesRsi(base, k, e, o, m);
    case 1 => SavesRbx(base, k, e, o, m);
    case 2 => Reserves(base, k, e, o, m);
    case 3 => PushesFlags(base, k, e, o, m);
    case 4 => PopsFlags(base, k, e, o, m);
    case 5 => Disables(base, k, e, o, m);
    case _ => ReadsCr0(base, k, e, o, m);
  }

  lemma WindowAdvances(base: int, k: Kind, e: Cpu, o: Outcome, p: int, m: Cpu)
    requires EntryOk(base, k, e) && At(base, k, e, o, p, m) && 7 <= p < 13
    ensures Advances(base, k, e, o, p, m, m.Exec(InstrAt(k, p)))
  {
    match p
    case 7 => CopiesCr0(base, k, e, o, m);
    case 8 => MasksWp(base, k, e, o, m);
    case 9 => ClearsWp(base, k, e, o, m);
    case 10 => LoadsFifth(base, k, e, o, m);
    case 11 => StoresFifth(base, k, e, o, m);
    case _ => LoadsService(base, k, e, o, m);
  }

  lemma RestoringAdvances(base: int, k: Kind, e: Cpu, o: Outcome, p: int, m: Cpu)
    requires EntryOk(base, k, e) && At(base, k, e, o, p, m) && 14 <= p < 20
    ensures Advances(base, k, e, o, p, m, m.Exec(InstrAt(k, p)))
  {
    match p
    case 14 => TestsWp(base, k, e, o, m);
    case 15 => BranchesOnWp(base, k, e, o, m);
    case 16 => RestoresCr0(base, k, e, o, m);
    case 17 => TestsIf(base, k, e, o, m);
    case 18 => BranchesOnIf(base, k, e, o, m);
    case _ => Enables(base, k, e, o, m);
  }

  lemma EpilogueAdvances(base: int, k: Kind, e: Cpu, o: Outcome, p: int, m: Cpu)
    requires EntryOk(base, k, e) && At(base, k, e, o, p, m) && 20 <= p < 23
    ensures Advances(base, k, e, o, p, m, m.Exec(InstrAt(k, p)))
  {
    match p
    case 20 => Releases(base, k, e, o, m);
    case 21 => RestoresRbx(base, k, e, o, m);
    case _ => RestoresRsi(base, k, e, o, m);
  }

  /** Every instruction but the call and the return establishes the assertion at its successor. */
  lemma StepAdvances(base: int, k: Kind, e: Cpu, o: Outcome, p: int, m: Cpu)
    requires EntryOk(base, k, e) && At(base, k, e, o, p, m) && p != 13 && p != 23
    ensures InCode(base, m.pc) && Advances(base, k, e, o, p, m, Step(base, m))
  {
    FetchAtPoint(base, k, p);
    if p < 7 {
      PrologueAdvances(base, k, e, o, p, m);
    } else if p < 13 {
      WindowAdvances(base, k, e, o, p, m);
    } else if p < 20 {
      RestoringAdvances(base, k, e, o, p, m);
    } else {
      EpilogueAdvances(base, k, e, o, p, m);
    }
  }

  /** s is the state in which the shim hands control to the service. */
  ghost predicate ServiceEntered(base: int, k: Kind, e: Cpu, s: Cpu) {
    && s.pc == Load(e.mem, base + SlotOffset(k))
    && s.rcx == e.rcx && s.rdx == e.rdx && s.r8 == e.r8 && s.r9 == e.r9
    && s.rsp % 16 == 8
    && (StackArgs(k) == 1 ==> Load(s.mem, s.rsp + 0x28) == Load(e.mem, e.rsp + 0x28))
    && s.cr0 == ClearWp(e.cr0) && !s.flags.intr && SameOtherFlags(e.flags, s.flags)
    && InService(base, k, e, s)
  }

  /** What must hold of the service's entry state s, with current memory, for the shim to resume. */
  ghost predicate InService(base: int, k: Kind, e: Cpu, s: Cpu) {
    && s.rsp == ServiceRsp(k, e)
    && s.rbx == e.cr0 && s.rsi == SavedFlags(e)
    && Load(s.mem, e.rsp) == e.Top()
    && Load(s.mem, e.rsp - 8) == e.rsi
    && Load(s.mem, e.rsp - 0x10) == e.rbx
  }

  /** First address the convention keeps a service entered with this RSP from writing in its caller's frame. */
  function CallerOwned(k: Kind, rsp: Word): int {
    rsp + 0x28 + 8 * StackArgs(k)
  }

  /**
   t is a state a service entered in s may return in: section 2.3.4 lets it change every volatile register,
   its return address, home area and stack arguments and everything below; CR0 and IF are left open.
   */
  ghost predicate ServiceReturned(k: Kind, e: Cpu, s: Cpu, t: Cpu) {
    && t.pc == s.Top() && t.rsp == s.rsp + 8
    && t.rbx == s.rbx && t.rsi == s.rsi
    && Agree(s.mem, t.mem, CallerOwned(k, s.rsp), FrameTop(k, e))
  }

  function OutcomeOf(t: Cpu): Outcome {
    Outcome(t.rax, t.rcx, t.rdx, t.r8, t.r9, t.cr0, t.flags)
  }

  /** x is the state in which the shim hands control back to its caller. */
  ghost predicate ShimReturned(k: Kind, e: Cpu, o: Outcome, x: Cpu) {
    && x.pc == e.Top() && x.rsp == e.rsp + 8
    && x.rax == o.rax && x.rcx == o.rcx && x.rdx == o.rdx && x.r8 == o.r8 && x.r9 == o.r9
    && x.rbx == e.rbx && x.rsi == e.rsi
    && x.cr0 == RestoredCr0(e, o)
    && x.flags.intr == (e.flags.intr || o.flags.intr) && SameOtherFlags(o.flags, x.flags)
  }

  /** RSP on entry to the service: the cell with the return address pushed for it. */
  function ServiceRsp(k: Kind, e: Cpu): int {
    e.rsp - 0x18 - FrameSize(k)
  }

  /** The state after the call instruction. */
  function AfterCall(base: int, k: Kind, e: Cpu, m: Cpu): Cpu
    requires EntryOk(base, k, e)
  {
    var q := ServiceRsp(k, e);
    m.(rsp := q, pc := m.rax, mem := m.mem[q := Address(base, k, 14)])
  }

  lemma CallExec(base: int, k: Kind, e: Cpu, m: Cpu)
    requires EntryOk(base, k, e) && m.rsp == StackAt(k, e, 13) && m.pc == Address(base, k, 13)
    ensures m.Exec(CallReg(RAX)) == AfterCall(base, k, e, m)
  {
    assert Wrap(m.rsp - 8) == ServiceRsp(k, e);
    assert Wrap(m.pc + 1) == Address(base, k, 14);
  }

  lemma CallStep(base: int, k: Kind, e: Cpu, o: Outcome, m: Cpu)
    requires EntryOk(base, k, e) && At(base, k, e, o, 13, m)
    ensures InCode(base, m.pc) && Step(base, m) == m.Exec(CallReg(RAX)) == AfterCall(base, k, e, m)
  {
    FetchAtPoint(base, k, 13);
    CallExec(base, k, e, m);
  }

  lemma CallKeepsCells(base: int, k: Kind, e: Cpu, o: Outcome, m: Cpu)
    requires EntryOk(base, k, e) && At(base, k, e, o, 13, m)
    ensures var s := AfterCall(base, k, e, m);
      && InService(base, k, e, s) && s.Top() == Address(base, k, 14)
      && (StackArgs(k) == 1 ==> Load(s.mem, s.rsp + 0x28) == Load(e.mem, e.rsp + 0x28))
      && OwnFrameOnly(e, m.mem, s.mem)
  {
  }

  /** The call forwards every argument exactly, with the window open and the stack aligned. */
  lemma CallEntersService(base: int, k: Kind, e: Cpu, o: Outcome, m: Cpu)
    requires EntryOk(base, k, e) && At(base, k, e, o, 13, m)
    ensures InCode(base, m.pc) && Step(base, m) == m.Exec(CallReg(RAX))
    ensures ServiceEntered(base, k, e, Step(base, m))
    ensures Step(base, m).Top() == Address(base, k, 14)
    ensures OwnFrameOnly(e, m.mem, Step(base, m).mem)
  {
    CallStep(base, k, e, o, m);
    CallKeepsCells(base, k, e, o, m);
  }

  /** Whatever the service did within the convention, the saved registers and the return address survive. */
  lemma ServiceResumesShim(base: int, k: Kind, e: Cpu, s: Cpu, t: Cpu)
    requires EntryOk(base, k, e) && InService(base, k, e, s) && s.Top() == Address(base, k, 14)
    requires ServiceReturned(k, e, s, t)
    ensures At(base, k, e, OutcomeOf(t), 14, t)
  {
  }

  lemma ReturnLeavesShim(base: int, k: Kind, e: Cpu, o: Outcome, m: Cpu)
    requires EntryOk(base, k, e) && At(base, k, e, o, 23, m)
    ensures InCode(base, m.pc) && Step(base, m) == m.Exec(Ret)
    ensures ShimReturned(k, e, o, Step(base, m)) && Step(base, m).mem == m.mem
  {
    FetchAtPoint(base, k, 23);
  }

  lemma EntryIsFirstPoint(base: int, k: Kind, e: Cpu, o: Outcome)
    requires EntryOk(base, k, e)
    ensures At(base, k, e, o, 0, e)
  {
  }

  /** Runs blob instructions until control leaves the code, at most n of them. */
  function Steps(base: int, m: Cpu, n: nat): Cpu
    decreases n
  {
    if n == 0 || !InCode(base, m.pc) then m else Steps(base, Step(base, m), n - 1)
  }

  lemma StepKeepsTheRest(base: int, m: Cpu)
    requires InCode(base, m.pc)
    ensures SameRest(m, Step(base, m))
  {
    ExecKeepsFlags(m, Fetch(m.pc - base));
  }

  /** However far a routine runs by itself, the argument registers and RFLAGS beyond ZF and IF stay as they are. */
  lemma {:induction false} StepsKeepTheRest(base: int, m: Cpu, n: nat)
    ensures SameRest(m, Steps(base, m, n))
    decreases n
  {
    if n > 0 && InCode(base, m.pc) {
      StepKeepsTheRest(base, m);
      StepsKeepTheRest(base, Step(base, m), n - 1);
    }
  }

  /** x is where a shim that stood at p left its code: in the service, or back in the caller. */
  ghost predicate LeftShim(base: int, k: Kind, e: Cpu, o: Outcome, p: int, x: Cpu) {
    if p <= 13 then ServiceEntered(base, k, e, x) && x.Top() == Address(base, k, 14)
    else ShimReturned(k, e, o, x)
  }

  lemma CallExits(base: int, k: Kind, e: Cpu, o: Outcome, m: Cpu, n: nat)
    requires EntryOk(base, k, e) && At(base, k, e, o, 13, m) && n >= 1
    ensures LeftShim(base, k, e, o, 13, Steps(base, m, n))
    ensures OwnFrameOnly(e, m.mem, Steps(base, m, n).mem)
  {
    CallEntersService(base, k, e, o, m);
    StepsOnce(base, m, n);
  }

  lemma ReturnExits(base: int, k: Kind, e: Cpu, o: Outcome, m: Cpu, n: nat)
    requires EntryOk(base, k, e) && At(base, k, e, o, 23, m) && n >= 1
    ensures LeftShim(base, k, e, o, 23, Steps(base, m, n))
    ensures OwnFrameOnly(e, m.mem, Steps(base, m, n).mem)
  {
    ReturnLeavesShim(base, k, e, o, m);
    StepsOnce(base, m, n);
  }

  lemma StepsOnce(base: int, m: Cpu, n: nat)
    requires n >= 1 && InCode(base, m.pc) && !InCode(base, Step(base, m).pc)
    ensures Steps(base, m, n) == Step(base, m)
  {
  }

  /** From any point, at most 24 instructions lead to the service or back to the caller. */
  lemma {:induction false} RunsToExit(base: int, k: Kind, e: Cpu, o: Outcome, p: int, m: Cpu, n: nat)
    requires EntryOk(base, k, e) && At(base, k, e, o, p, m) && n >= 24 - p
    ensures LeftShim(base, k, e, o, p, Steps(base, m, n))
    ensures OwnFrameOnly(e, m.mem, Steps(base, m, n).mem)
    decreases 24 - p
  {
    if p == 13 {
      CallExits(base, k, e, o, m, n);
    } else if p == 23 {
      ReturnExits(base, k, e, o, m, n);
    } else {
      StepAdvances(base, k, e, o, p, m);
      RunsToExit(base, k, e, o, Successor(k, e, p), Step(base, m), n - 1);
    }
  }

  lemma RunsToService(base: int, k: Kind, e: Cpu, n: nat)
    requires EntryOk(base, k, e) && n >= 24
    ensures var s := Steps(base, e, n);
      && ServiceEntered(base, k, e, s) && s.Top() == Address(base, k, 14)
      && OwnFrameOnly(e, e.mem, s.mem)
  {
    var anything := OutcomeOf(e);
    EntryIsFirstPoint(base, k, e, anything);
    RunsToExit(base, k, e, anything, 0, e, n);
  }

  lemma ResumesAfterCall(base: int, k: Kind, e: Cpu, t: Cpu, n: nat)
    requires EntryOk(base, k, e) && n >= 24 && ServiceReturned(k, e, Steps(base, e, n), t)
    ensures At(base, k, e, OutcomeOf(t), 14, t)
  {
    RunsToService(base, k, e, n);
    ServiceResumesShim(base, k, e, Steps(base, e, n), t);
  }

  /**
   Each shim is "run the service with WP and IF clear, then restore": for every entry state and every
   service that keeps the calling convention; n is any bound no run exceeds.  Memory outside the shim's own frame
   is the service's doing.
   */
  lemma ShimRefinesSpecification(base: int, k: Kind, e: Cpu, t: Cpu, n: nat)
    requires EntryOk(base, k, e) && n >= 24 && ServiceReturned(k, e, Steps(base, e, n), t)
    ensures var s := Steps(base, e, n);
      var x := Steps(base, t, n);
      && ServiceEntered(base, k, e, s)
      && ShimReturned(k, e, OutcomeOf(t), x)
      && OwnFrameOnly(e, e.mem, s.mem) && OwnFrameOnly(e, t.mem, x.mem)
  {
    RunsToService(base, k, e, n);
    ResumesAfterCall(base, k, e, t, n);
    RunsToExit(base, k, e, OutcomeOf(t), 14, t, n);
  }

  /** Any call with RSP a multiple of 16 and room for the shim's frame, clear of the blob, enters a shim so. */
  lemma AnyAlignedCallEnters(base: int, k: Kind, m: Cpu, ret: Word)
    requires 0 <= base && base + BLOB_SIZE < TWO_64
    requires m.rsp % 16 == 0 && 0x60 <= m.rsp && m.rsp + 0x28 <= TWO_64
    requires base + BLOB_SIZE <= m.rsp - 0x60 || m.rsp + 0x28 <= base
    requires !InBlob(base, ret) && !InBlob(base, Load(m.mem, base + SlotOffset(k)))
    ensures EntryOk(base, k, m.PushWord(ret).(pc := base + EntryOffset(k)))
    ensures m.PushWord(ret).(pc := base + EntryOffset(k)).Top() == ret
  {
    assert Wrap(m.rsp - 8) == m.rsp - 8;
    assert InBlob(base, base + SlotOffset(k));
  }

  /**
   Saved values survive whatever the service writes: every volatile register, CR0 and the flags, and all memory but the
   cells from the shim's frame above the service's return address, home area and stack arguments to the caller's.
   */
  lemma SavedValuesSurvive(base: int, k: Kind, e: Cpu, o: Outcome, mem: Memory, n: nat) returns (t: Cpu)
    requires EntryOk(base, k, e) && n >= 24
    requires forall a ::
      (if k.GetNextVariableName? then e.rsp - 0x18 <= a < e.rsp + 0x28 else e.rsp - 0x20 <= a < e.rsp + 0x30) ==>
        Load(mem, a) == Load(Steps(base, e, n).mem, a)
    ensures OutcomeOf(t) == o && t.mem == mem && ServiceReturned(k, e, Steps(base, e, n), t)
    ensures ShimReturned(k, e, o, Steps(base, t, n))
  {
    RunsToService(base, k, e, n);
    var s := Steps(base, e, n);
    t := Cpu(o.rax, s.rbx, s.rsi, o.rcx, o.rdx, o.r8, o.r9, s.rsp + 8, o.cr0, o.flags, s.Top(), mem);
    ShimRefinesSpecification(base, k, e, t, n);
  }

  /**
   CR0 and IF come back as they were exactly when the service did not spoil a bit the shim leaves to it:
   CR0 is the service's business when WP was already clear, IF when interrupts were already off.
   */
  lemma RestoresExactlyWhen(base: int, k: Kind, e: Cpu, t: Cpu, n: nat)
    requires EntryOk(base, k, e) && n >= 24 && ServiceReturned(k, e, Steps(base, e, n), t)
    ensures Steps(base, t, n).cr0 == e.cr0 <==> WriteProtect(e.cr0) || t.cr0 == e.cr0
    ensures Steps(base, t, n).flags.intr == e.flags.intr <==> e.flags.intr || !t.flags.intr
  {
    ShimRefinesSpecification(base, k, e, t, n);
  }

  /** Entered with WP clear, a shim hands on whatever its service writes to CR0. */
  lemma ServiceCr0Escapes(base: int, k: Kind, e: Cpu, written: Word, n: nat) returns (t: Cpu)
    requires EntryOk(base, k, e) && !WriteProtect(e.cr0) && written != e.cr0 && n >= 24
    ensures ServiceReturned(k, e, Steps(base, e, n), t) && t.cr0 == written
    ensures Steps(base, t, n).cr0 == written != e.cr0
  {
    RunsToService(base, k, e, n);
    var s := Steps(base, e, n);
    t := s.(pc := s.Top(), rsp := s.rsp + 8, cr0 := written);
    ShimRefinesSpecification(base, k, e, t, n);
  }

  /** The processor's fetch-execute loop, from any state until control leaves the code or n runs out. */
  method Execute(base: int, start: Cpu, n: nat) returns (m: Cpu)
    ensures m == Steps(base, start, n)
  {
    m := start;
    var left := n;
    while left > 0 && InCode(base, m.pc)
      invariant Steps(base, m, left) == Steps(base, start, n)
    {
      m := Step(base, m);
      left := left - 1;
    }
  }
}
