/**
 What the machine lets other code do: the transitions of code outside the blob are as free as the calling convention
 leaves it, whatever is suspended beneath.
 */
module Permitted {
  import opened Wrappers
  import opened Words
  import opened Machine
  import opened Shim
  import opened Nesting
  import opened NestedRuns

  /** A run may start in any state of other code ... */
  lemma AnyStateMayStart(base: int, m: Cpu)
    requires !(base <= m.pc < base + BLOB_SIZE)
    ensures IsRun(base, [Config(m, [Foreign(m, false)])], [])
  {
  }

  /** ... and go on with any step. */
  lemma AnyStepExtends(base: int, cs: seq<Config>, evs: seq<Event>, ev: Event, c': Config)
    requires IsRun(base, cs, evs) && Next(base, cs[|evs|], ev, c')
    ensures IsRun(base, cs + [c'], evs + [ev])
  {
    var ds, es := cs + [c'], evs + [ev];
    forall i | 0 <= i < |es|
      ensures Next(base, ds[i], es[i], ds[i + 1])
    {
      assert i < |evs| ==> es[i] == evs[i] && ds[i] == cs[i] && ds[i + 1] == cs[i + 1];
    }
  }

  /** Suspended shim i still needs cell x. */
  ghost predicate Needs(stack: seq<Activation>, i: int, x: int) {
    && 0 <= i < |stack| - 1 && stack[i].Running? && stack[i + 1].Foreign?
    && var args := if stack[i].kind.GetNextVariableName? then 0x28 else 0x30;
       var rsp := stack[i + 1].e.rsp;
       (if stack[i + 1].interrupted then rsp else rsp + args) <= x < stack[i].e.rsp + args
  }

  /** Only cells that are neither in the blob nor needed change. */
  ghost predicate WritesFreely(base: int, stack: seq<Activation>, mem: Memory, mem': Memory) {
    forall x {:trigger Load(mem', x)} :: Load(mem', x) != Load(mem, x) ==>
      !(base <= x < base + BLOB_SIZE) && forall i :: !Needs(stack, i, x)
  }

  lemma FreelyRespects(base: int, stack: seq<Activation>, mem: Memory, mem': Memory)
    requires WritesFreely(base, stack, mem, mem')
    ensures Respects(base, stack, mem, mem')
  {
    forall x | InBlob(base, x) || Protected(stack, x)
      ensures Load(mem', x) == Load(mem, x)
    {
      if i :| Owns(stack, i, x) {
        assert Needs(stack, i, x);
      }
    }
  }

  /** Any state may follow, CR0, IF and all registers included. */
  lemma OtherCodeMayDoAnything(base: int, c: Config, m: Cpu)
    requires |c.stack| > 0 && Top(c.stack).Foreign? && !(base <= m.pc < base + BLOB_SIZE)
    requires WritesFreely(base, c.stack, c.m.mem, m.mem)
    ensures Next(base, c, ForeignInstr, Config(m, c.stack))
  {
    FreelyRespects(base, c.stack, c.m.mem, m.mem);
  }

  /** An interrupt may arrive wherever IF is set, and its handler start anywhere on any stack. */
  lemma InterruptMayArrive(base: int, c: Config, rsp: Word, pc: int, mem: Memory) returns (c': Config)
    requires |c.stack| > 0 && c.m.flags.intr && !(base <= pc < base + BLOB_SIZE)
    requires WritesFreely(base, c.stack + [Foreign(c.m, true)], c.m.mem, mem)
    ensures c'.stack == c.stack + [Foreign(c.m, true)] && c'.m.rsp == rsp && c'.m.pc == pc && c'.m.mem == mem
    ensures Next(base, c, Interrupt, c')
  {
    c' := Config(c.m.SetIf(false).(rsp := rsp, pc := pc, mem := mem), c.stack + [Foreign(c.m, true)]);
    FreelyRespects(base, c'.stack, c.m.mem, mem);
  }

  /** A service may return as soon as RBX, RSI and RSP are those it was entered with. */
  lemma ServiceMayReturn(base: int, c: Config, k: Kind, e: Cpu, entered: Cpu, below: seq<Activation>)
    requires c.stack == below + [Running(k, e, None), Foreign(entered, false)]
    requires c.m.rsp == entered.rsp && c.m.rbx == entered.rbx && c.m.rsi == entered.rsi
    ensures var t := c.m.(rsp := Wrap(entered.rsp + 8), pc := entered.Top());
      Next(base, c, ForeignReturn, Config(t, below + [Running(k, e, Some(OutcomeOf(t)))]))
  {
    var n := |below|;
    assert Below(c.stack) == below + [Running(k, e, None)];
    assert Below(Below(c.stack)) == below;
  }

  /** A handler may return to what it interrupted with the CR0 it found. */
  lemma HandlerMayReturn(base: int, c: Config, interrupted: Cpu, below: seq<Activation>)
    requires |below| > 0 && c.stack == below + [Foreign(interrupted, true)] && c.m.cr0 == interrupted.cr0
    ensures Next(base, c, InterruptReturn, Config(interrupted.(mem := c.m.mem), below))
  {
    assert Below(c.stack) == below;
  }

  /** Services and handlers may call a shim again, with a frame clear of the blob and of what is needed. */
  lemma ShimMayBeCalledAgain(base: int, c: Config, k: Kind, ret: Word) returns (c': Config)
    requires |c.stack| > 0 && Top(c.stack).Foreign? && 0 <= base && base + BLOB_SIZE < TWO_64
    requires c.m.rsp % 16 == 0 && 0x60 <= c.m.rsp && c.m.rsp + 0x28 <= TWO_64
    requires base + BLOB_SIZE <= c.m.rsp - 0x60 || c.m.rsp + 0x28 <= base
    requires !InBlob(base, ret) && !InBlob(base, Load(c.m.mem, base + SlotOffset(k)))
    requires forall i, x :: c.m.rsp - 0x58 <= x < c.m.rsp + 0x28 ==> !Needs(c.stack, i, x)
    ensures Next(base, c, CallShim(k, ret), c')
  {
    AnyAlignedCallEnters(base, k, c.m, ret);
    var e := c.m.PushWord(ret).(pc := base + EntryOffset(k));
    assert e.rsp == c.m.rsp - 8;
    c' := Config(e, c.stack + [Running(k, e, None)]);
    forall x | InFrame(k, e, x)
      ensures !Protected(c.stack, x)
    {
      if i :| Owns(c.stack, i, x) {
        assert Needs(c.stack, i, x);
      }
    }
  }
}
