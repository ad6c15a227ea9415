/**
 The part of an x86-64 processor the write-protection shims use: registers, CR0, RFLAGS, memory and
 an instruction pointer.  Instructions are one address unit long; control-flow and data operands
 inside the blob are relative to the next instruction, as under "DEFAULT REL".
 */
module Machine {
  import opened Words

  const WP_MASK: Word := 0x10000
  const WP_CLEAR_MASK: Word := 0xFFFF_FFFF_FFFE_FFFF
  const IF_MASK: Word := 0x200

  /** RFLAGS, split around the two bits the shims look at: ZF is bit 6, IF is bit 9. */
  datatype Flags = Flags(low: nat, zf: bool, mid: nat, intr: bool, high: nat) {
    predicate Valid() {
      low < 0x40 && mid < 4 && high < 0x40_0000_0000_0000
    }

    function Pack(): (w: Word)
      requires Valid()
    {
      low + (if zf then 0x40 else 0) + 0x80 * mid + (if intr then 0x200 else 0) + 0x400 * high
    }
  }

  type ValidFlags = f: Flags | f.Valid() witness Flags(0, false, 0, false, 0)

  datatype Reg = RAX | RBX | RSI

  datatype Instr =
    | Push(r: Reg)
    | Pop(r: Reg)
    | SubRsp(n: nat)
    | AddRsp(n: nat)
    | PushFq
    | Cli
    | Sti
    | MovFromCr0(r: Reg)
    | MovToCr0(r: Reg)
    | MovReg(dst: Reg, src: Reg)
    | AndImm(r: Reg, mask: Word)
    | LoadStack(r: Reg, offset: nat)
    | StoreStack(offset: nat, r: Reg)
    | LoadRel(r: Reg, disp: int)
    | CallReg(r: Reg)
    | TestImm32(r: Reg, mask: Word)
    | Je(disp: int)
    | Ret

  /** Memory by quadword; a cell never written holds zero. */
  type Memory = map<int, Word>

  function Load(mem: Memory, a: int): Word {
    if a in mem then mem[a] else 0
  }

  /** The two memories agree on every cell in [lo, hi). */
  ghost predicate Agree(m: Memory, m': Memory, lo: int, hi: int) {
    forall a {:trigger Load(m', a)} :: lo <= a < hi ==> Load(m', a) == Load(m, a)
  }

  datatype Cpu = Cpu(
    rax: Word, rbx: Word, rsi: Word,
    rcx: Word, rdx: Word, r8: Word, r9: Word,
    rsp: Word, cr0: Word, flags: ValidFlags, pc: int, mem: Memory)
  {
    function Get(r: Reg): Word {
      match r
      case RAX => rax
      case RBX => rbx
      case RSI => rsi
    }

    function Set(r: Reg, w: Word): Cpu {
      match r
      case RAX => this.(rax := w)
      case RBX => this.(rbx := w)
      case RSI => this.(rsi := w)
    }

    function SetZf(result: nat): Cpu {
      this.(flags := flags.(zf := result == 0))
    }

    function SetIf(on: bool): Cpu {
      this.(flags := flags.(intr := on))
    }

    function PushWord(w: Word): Cpu {
      var sp := Wrap(rsp - 8);
      this.(rsp := sp, mem := mem[sp := w])
    }

    function Top(): Word {
      Load(mem, rsp)
    }

    function Drop(): Cpu {
      this.(rsp := Wrap(rsp + 8))
    }

    /** Executes one instruction; next is the address of the one after it. */
    function Exec(i: Instr): Cpu {
      var next := pc + 1;
      match i
      case Push(r) => PushWord(Get(r)).(pc := next)
      case Pop(r) => Drop().Set(r, Top()).(pc := next)
      case SubRsp(n) => this.(rsp := Wrap(rsp - n), pc := next).SetZf(Wrap(rsp - n))
      case AddRsp(n) => this.(rsp := Wrap(rsp + n), pc := next).SetZf(Wrap(rsp + n))
      case PushFq => PushWord(flags.Pack()).(pc := next)
      case Cli => SetIf(false).(pc := next)
      case Sti => SetIf(true).(pc := next)
      case MovFromCr0(r) => Set(r, cr0).(pc := next)
      case MovToCr0(r) => this.(cr0 := Get(r), pc := next)
      case MovReg(dst, src) => Set(dst, Get(src)).(pc := next)
      case AndImm(r, mask) => Set(r, And(Get(r), mask)).SetZf(And(Get(r), mask)).(pc := next)
      case LoadStack(r, offset) => Set(r, Load(mem, Wrap(rsp + offset))).(pc := next)
      case StoreStack(offset, r) => this.(mem := mem[Wrap(rsp + offset) := Get(r)], pc := next)
      case LoadRel(r, disp) => Set(r, Load(mem, next + disp)).(pc := next)
      case CallReg(r) => PushWord(Wrap(next)).(pc := Get(r))
      case TestImm32(r, mask) => SetZf(And(Get(r) % TWO_32, mask)).(pc := next)
      case Je(disp) => this.(pc := if flags.zf then next + disp else next)
      case Ret => Drop().(pc := Top())
    }
  }

  /** RFLAGS as "pushfq" stores it: ZF is bit 6, IF bit 9, and every other flag is in its place. */
  lemma PackPlacesFlags(f: ValidFlags)
    ensures f.Pack() % 0x40 == f.low && (f.Pack() / 0x80) % 4 == f.mid && f.Pack() / 0x400 == f.high
    ensures (f.Pack() / 0x40) % 2 == 1 <==> f.zf
    ensures (f.Pack() / 0x200) % 2 == 1 <==> f.intr
  {
    var z, i := if f.zf then 1 else 0, if f.intr then 1 else 0;
    var fromIf := i + 2 * f.high;
    var fromMid := f.mid + 4 * fromIf;
    Placed(f.Pack(), 0x40, f.low, z + 2 * fromMid);
    Placed(f.Pack(), 0x80, f.low + 0x40 * z, fromMid);
    Placed(f.Pack(), 0x200, f.low + 0x40 * z + 0x80 * f.mid, fromIf);
    Placed(f.Pack(), 0x400, f.low + 0x40 * z + 0x80 * f.mid + 0x200 * i, f.high);
    Placed(z + 2 * fromMid, 2, z, fromMid);
    Placed(fromMid, 4, f.mid, fromIf);
    Placed(fromIf, 2, i, f.high);
  }

  lemma Placed(w: nat, unit: nat, low: nat, high: nat)
    requires low < unit && w == low + unit * high
    ensures w % unit == low && w / unit == high
  {
    DivModUnique(w, unit, high, low);
  }

  /** The flags differ in ZF and IF at most. */
  predicate SameOtherFlags(f: Flags, g: Flags) {
    g.low == f.low && g.mid == f.mid && g.high == f.high
  }

  /** The argument registers, which no instruction of the subset names, and RFLAGS beyond ZF and IF are the same. */
  predicate SameRest(m: Cpu, x: Cpu) {
    && SameOtherFlags(m.flags, x.flags)
    && x.rcx == m.rcx && x.rdx == m.rdx && x.r8 == m.r8 && x.r9 == m.r9
  }

  /** No instruction of the subset touches RFLAGS beyond ZF and IF, and IF is written by "cli" and "sti" alone. */
  lemma ExecKeepsFlags(m: Cpu, i: Instr)
    ensures SameOtherFlags(m.flags, m.Exec(i).flags)
    ensures SameRest(m, m.Exec(i))
    ensures m.Exec(i).flags.intr == (if i.Cli? then false else if i.Sti? then true else m.flags.intr)
  {
  }

  predicate WriteProtect(cr0: Word) {
    (cr0 / WP_MASK) % 2 == 1
  }

  function ClearWp(cr0: Word): Word {
    And(cr0, WP_CLEAR_MASK)
  }

  lemma {:induction false} BitIsDiv(w: nat, k: nat)
    ensures Bit(w, k) <==> (w / Pow2(k)) % 2 == 1
  {
    if k > 0 {
      BitIsDiv(w / 2, k - 1);
      DivTwice(w, Pow2(k - 1));
    }
  }

  lemma DivTwice(w: nat, p: nat)
    requires p > 0
    ensures (w / 2) / p == w / (2 * p)
  {
    var q, r := (w / 2) / p, (w / 2) % p;
    assert w / 2 == q * p + r;
    assert w == q * (2 * p) + (2 * r + w % 2);
    DivModUnique(w, 2 * p, q, 2 * r + w % 2);
  }

  /** "and rax, ~0x10000" clears WP and nothing else. */
  lemma {:induction false} ClearWpEffect(w: Word)
    ensures ClearWp(w) == if WriteProtect(w) then w - WP_MASK else w
    ensures !WriteProtect(ClearWp(w))
    ensures ClearWp(ClearWp(w)) == ClearWp(w)
  {
    MaskClearsWp(w);
    if WriteProtect(w) {
      WpGone(w);
    }
    MaskClearsWp(ClearWp(w));
  }

  lemma {:induction false} MaskClearsWp(w: Word)
    ensures ClearWp(w) == if WriteProtect(w) then w - WP_MASK else w
  {
    Pow2Values();
    BitIsDiv(w, 16);
    AndAllButBit(w, 64, 16);
  }

  lemma WpGone(w: nat)
    requires (w / WP_MASK) % 2 == 1
    ensures w >= WP_MASK && ((w - WP_MASK) / WP_MASK) % 2 == 0
  {
    DivModUnique(w - WP_MASK, WP_MASK, w / WP_MASK - 1, w % WP_MASK);
  }

  /** Truncation to 32 bits keeps bits 9 and 16. */
  lemma LowHalfWpBit(w: nat)
    ensures (w % TWO_32 / WP_MASK) % 2 == (w / WP_MASK) % 2
  {
    var q, a, b := w / TWO_32, w % TWO_32 / 0x1_0000, w % TWO_32 % 0x1_0000;
    DivModUnique(w, 0x1_0000, 0x1_0000 * q + a, b);
    EvenPlus(0x8000 * q, a);
  }

  lemma LowHalfIfBit(w: nat)
    ensures (w % TWO_32 / IF_MASK) % 2 == (w / IF_MASK) % 2
  {
    var q, a, b := w / TWO_32, w % TWO_32 / 0x200, w % TWO_32 % 0x200;
    DivModUnique(w, 0x200, 0x80_0000 * q + a, b);
    EvenPlus(0x40_0000 * q, a);
  }

  lemma EvenPlus(n: nat, a: nat)
    ensures (2 * n + a) % 2 == a % 2
  {
  }

  lemma PackIfBit(f: ValidFlags)
    ensures (f.Pack() / IF_MASK) % 2 == if f.intr then 1 else 0
  {
    var rest := f.low + (if f.zf then 0x40 else 0) + 0x80 * f.mid;
    assert f.Pack() == rest + 0x200 * ((if f.intr then 1 else 0) + 2 * f.high);
    assert 0 <= rest < 0x200;
  }

  /** The 32-bit "test ebx, 0x10000" sees exactly the WP bit of the 64-bit register. */
  lemma {:induction false} TestWpEffect(w: Word)
    ensures And(w % TWO_32, WP_MASK) == 0 <==> !WriteProtect(w)
  {
    LowHalfWpBit(w);
    var low: nat := w % TWO_32;
    TestMask(low, 16, WP_MASK);
  }

  /** The 32-bit "test esi, 0x200" on pushed flags sees exactly IF. */
  lemma {:induction false} TestIfEffect(f: ValidFlags)
    ensures And(f.Pack() % TWO_32, IF_MASK) == 0 <==> !f.intr
  {
    PackIfBit(f);
    LowHalfIfBit(f.Pack());
    var low: nat := f.Pack() % TWO_32;
    TestMask(low, 9, IF_MASK);
  }

  lemma {:induction false} TestMask(w: nat, k: nat, mask: nat)
    requires (k == 9 && mask == IF_MASK) || (k == 16 && mask == WP_MASK)
    ensures And(w, mask) == 0 <==> (w / mask) % 2 == 0
  {
    Pow2Values();
    BitIsDiv(w, k);
    AndSingleBit(w, k);
  }
}
