/**
 The shims inside a whole machine: services, interrupt handlers and any other code may call shims again,
 to any depth, and interrupts may arrive between any two instructions while IF is set.  The state carries
 the stack of unfinished activations; one invariant of it, kept by every step, gives the safety results.
 */
module Nesting {
  import opened Wrappers
  import opened Words
  import opened Machine
  import opened Shim

  /**
   An unfinished activation: a shim, entered in state e, with what its service returned once it has; or other
   code, which took over in state e, either called (by a shim, or the root) or by interrupting state e.
   */
  datatype Activation =
    | Running(kind: Kind, e: Cpu, done: Option<Outcome>)
    | Foreign(e: Cpu, interrupted: bool)

  datatype Config = Config(m: Cpu, stack: seq<Activation>)

  datatype Event =
    | ShimInstr | ServiceCall | ShimReturn
    | ForeignInstr | CallShim(kind: Kind, ret: Word) | ForeignReturn
    | Interrupt | InterruptReturn

  /** The lowest cell of a suspended shim's frame that the code above it must not write. */
  function ProtectedFrom(a: Activation, child: Activation): int
    requires a.Running? && child.Foreign?
  {
    if child.interrupted then child.e.rsp else CallerOwned(a.kind, child.e.rsp)
  }

  ghost predicate Suspended(stack: seq<Activation>, i: int) {
    0 <= i < |stack| - 1 && stack[i].Running? && stack[i + 1].Foreign?
  }

  ghost predicate Owns(stack: seq<Activation>, i: int, x: int) {
    Suspended(stack, i) && ProtectedFrom(stack[i], stack[i + 1]) <= x < FrameTop(stack[i].kind, stack[i].e)
  }

  ghost predicate Protected(stack: seq<Activation>, x: int) {
    exists i :: Owns(stack, i, x)
  }

  /** The cells a shim entered in state e uses: all it may write, its return address and its arguments. */
  predicate InFrame(k: Kind, e: Cpu, x: int) {
    e.rsp - 0x50 <= x < FrameTop(k, e)
  }

  /** The convention's limits on code above suspended shims; the blob is never written. */
  ghost predicate Respects(base: int, stack: seq<Activation>, mem: Memory, mem': Memory) {
    forall x {:trigger Load(mem', x)} :: InBlob(base, x) || Protected(stack, x) ==> Load(mem', x) == Load(mem, x)
  }

  /** Shim i is inside its service: the window it opened with WP clear and interrupts off. */
  ghost predicate Window(stack: seq<Activation>, i: int) {
    Suspended(stack, i) && !stack[i + 1].interrupted
  }

  ghost predicate AnyWindow(stack: seq<Activation>) {
    exists i :: Window(stack, i)
  }

  function Below(stack: seq<Activation>): seq<Activation>
    requires |stack| > 0
  {
    stack[..|stack| - 1]
  }

  function Top(stack: seq<Activation>): Activation
    requires |stack| > 0
  {
    stack[|stack| - 1]
  }

  ghost predicate Next(base: int, c: Config, ev: Event, c': Config) {
    && |c.stack| > 0
    && var top := Top(c.stack);
       match ev
       case ShimInstr =>
         && top.Running? && InCode(base, c.m.pc)
         && var i := Fetch(c.m.pc - base);
            !i.CallReg? && !i.Ret? && c' == Config(Step(base, c.m), c.stack)
       case ServiceCall =>
         && top.Running? && InCode(base, c.m.pc) && Fetch(c.m.pc - base).CallReg?
         && var s := Step(base, c.m);
            c' == Config(s, c.stack + [Foreign(s, false)])
       case ShimReturn =>
         && top.Running? && InCode(base, c.m.pc) && Fetch(c.m.pc - base).Ret?
         && c' == Config(Step(base, c.m), Below(c.stack))
       case ForeignInstr =>
         && top.Foreign? && c'.stack == c.stack
         && !InBlob(base, c'.m.pc)
         && Respects(base, c.stack, c.m.mem, c'.m.mem)
       case CallShim(k, ret) =>
         && top.Foreign?
         && var e := c.m.PushWord(ret).(pc := base + EntryOffset(k));
            && EntryOk(base, k, e)
            && (forall x :: InFrame(k, e, x) ==> !Protected(c.stack, x))
            && c' == Config(e, c.stack + [Running(k, e, None)])
       case ForeignReturn =>
         && top.Foreign? && !top.interrupted && |c.stack| > 1 && Top(Below(c.stack)).Running?
         && c.m.rsp == top.e.rsp && c.m.rbx == top.e.rbx && c.m.rsi == top.e.rsi
         && var t := c.m.(rsp := Wrap(top.e.rsp + 8), pc := top.e.Top());
            var caller := Top(Below(c.stack));
            c' == Config(t, Below(Below(c.stack)) + [caller.(done := Some(OutcomeOf(t)))])
       case Interrupt =>
         && c.m.flags.intr
         && c'.stack == c.stack + [Foreign(c.m, true)]
         && c'.m == c.m.SetIf(false).(rsp := c'.m.rsp, pc := c'.m.pc, mem := c'.m.mem)
         && !InBlob(base, c'.m.pc)
         && Respects(base, c'.stack, c.m.mem, c'.m.mem)
       case InterruptReturn =>
         && top.Foreign? && top.interrupted && |c.stack| > 1
         && c.m.cr0 == top.e.cr0
         && c' == Config(top.e.(mem := c.m.mem), Below(c.stack))
  }

  /** Ordinary code is running, no shim has been entered. */
  ghost predicate Init(base: int, c: Config) {
    c.stack == [Foreign(c.m, false)] && !InBlob(base, c.m.pc)
  }

  // ---- the invariant ----

  function PointOf(base: int, k: Kind, pc: int): int {
    var i := pc - base - EntryOffset(k);
    if k.GetNextVariableName? && i >= 10 then i + 2 else i
  }

  function Result(a: Activation): Outcome
    requires a.Running?
  {
    if a.done.Some? then a.done.value else OutcomeOf(a.e)
  }

  /** Shim activation a stands at the instruction m.pc. */
  ghost predicate Stands(base: int, a: Activation, m: Cpu)
    requires a.Running?
  {
    var p := PointOf(base, a.kind, m.pc);
    At(base, a.kind, a.e, Result(a), p, m) && (a.done.Some? <==> p >= 14)
  }

  ghost predicate RunningOk(base: int, stack: seq<Activation>, i: int, m: Cpu)
    requires 0 <= i < |stack| && stack[i].Running?
  {
    var a := stack[i];
    && EntryOk(base, a.kind, a.e)
    && if i == |stack| - 1 then Stands(base, a, m)
       else
         && stack[i + 1].Foreign?
         && var child := stack[i + 1];
            if child.interrupted then Stands(base, a, child.e.(mem := m.mem))
            else
              && a.done.None?
              && child.e.Top() == Address(base, a.kind, 14)
              && InService(base, a.kind, a.e, child.e.(mem := m.mem))
  }

  ghost predicate Linked(stack: seq<Activation>) {
    && |stack| > 0 && stack[0].Foreign? && !stack[0].interrupted
    && (forall i :: 0 < i < |stack| && stack[i].Running? ==> stack[i - 1].Foreign?)
    && (forall i :: 0 < i < |stack| && stack[i].Foreign? && !stack[i].interrupted ==> stack[i - 1].Running?)
  }

  /** No shim's frame overlaps what a suspended shim beneath it still needs. */
  ghost predicate Apart(stack: seq<Activation>) {
    forall i, j, x :: 0 <= i < j < |stack| && stack[j].Running? && Owns(stack, i, x) ==>
      !InFrame(stack[j].kind, stack[j].e, x)
  }

  ghost predicate AllRunningOk(base: int, c: Config) {
    forall i :: 0 <= i < |c.stack| && c.stack[i].Running? ==> RunningOk(base, c.stack, i, c.m)
  }

  ghost predicate Inv(base: int, c: Config) {
    && Linked(c.stack)
    && AllRunningOk(base, c)
    && Apart(c.stack)
  }

  lemma InitInv(base: int, c: Config)
    requires Init(base, c)
    ensures Inv(base, c)
  {
  }

  /** At depends on memory through the shim's live frame and its slot only. */
  lemma AtFrame(base: int, k: Kind, e: Cpu, o: Outcome, p: int, m: Cpu, mem: Memory)
    requires EntryOk(base, k, e) && At(base, k, e, o, p, m)
    requires forall x :: m.rsp <= x < FrameTop(k, e) || InBlob(base, x) ==> Load(mem, x) == Load(m.mem, x)
    ensures At(base, k, e, o, p, m.(mem := mem))
  {
    assert InBlob(base, base + SlotOffset(k));
    assert MemoryAt(base, k, e, p, m.(mem := mem));
  }

  lemma InServiceFrame(base: int, k: Kind, e: Cpu, s: Cpu, mem: Memory)
    requires EntryOk(base, k, e) && InService(base, k, e, s)
    requires forall x :: CallerOwned(k, s.rsp) <= x < FrameTop(k, e) ==> Load(mem, x) == Load(s.mem, x)
    ensures InService(base, k, e, s.(mem := mem))
  {
  }

  /** A memory change that respects the suspended frames keeps every suspended shim's part of the invariant. */
  lemma SuspendedKept(base: int, stack: seq<Activation>, i: int, m: Cpu, m': Cpu)
    requires Suspended(stack, i) && RunningOk(base, stack, i, m)
    requires Respects(base, stack, m.mem, m'.mem)
    ensures RunningOk(base, stack, i, m')
  {
    var a, child := stack[i], stack[i + 1];
    forall x | ProtectedFrom(a, child) <= x < FrameTop(a.kind, a.e)
      ensures Protected(stack, x)
    {
      assert Owns(stack, i, x);
    }
    if child.interrupted {
      var s := child.e.(mem := m.mem);
      AtFrame(base, a.kind, a.e, Result(a), PointOf(base, a.kind, s.pc), s, m'.mem);
    } else {
      InServiceFrame(base, a.kind, a.e, child.e.(mem := m.mem), m'.mem);
    }
  }

  /** A step of the shim on top writes its own frame only, hence nothing protected. */
  lemma OwnFrameRespects(base: int, c: Config, mem': Memory)
    requires Inv(base, c) && Top(c.stack).Running?
    requires forall a :: !InFrame(Top(c.stack).kind, Top(c.stack).e, a) ==> Load(mem', a) == Load(c.m.mem, a)
    ensures Respects(base, c.stack, c.m.mem, mem')
  {
    var top := Top(c.stack);
    assert RunningOk(base, c.stack, |c.stack| - 1, c.m);
    forall x | Protected(c.stack, x)
      ensures !InFrame(top.kind, top.e, x)
    {
      var i :| Owns(c.stack, i, x);
      assert i < |c.stack| - 1;
    }
  }

  /** Below an untouched prefix every suspended shim is still fine. */
  lemma PrefixKept(base: int, c: Config, n: int, c': Config)
    requires Inv(base, c) && 0 <= n < |c.stack| && n < |c'.stack|
    requires c'.stack[..n] == c.stack[..n] && c.stack[n].Foreign? && c'.stack[n] == c.stack[n]
    requires Respects(base, c.stack, c.m.mem, c'.m.mem)
    ensures forall i :: 0 <= i < n && c'.stack[i].Running? ==> RunningOk(base, c'.stack, i, c'.m)
  {
    forall i | 0 <= i < n && c'.stack[i].Running?
      ensures RunningOk(base, c'.stack, i, c'.m)
    {
      assert c'.stack[i] == c.stack[i] && c'.stack[i + 1] == c.stack[i + 1];
      assert RunningOk(base, c.stack, i, c.m);
      SuspendedKept(base, c.stack, i, c.m, c'.m);
    }
  }

  lemma ApartKept(stack: seq<Activation>, stack': seq<Activation>, n: int)
    requires Apart(stack) && 0 <= n <= |stack| && n <= |stack'| && stack'[..n] == stack[..n]
    requires forall j :: n <= j < |stack'| ==> stack'[j].Foreign?
    ensures Apart(stack')
  {
    forall i, j, x | 0 <= i < j < |stack'| && stack'[j].Running? && Owns(stack', i, x)
      ensures !InFrame(stack'[j].kind, stack'[j].e, x)
    {
      assert stack'[i] == stack[i] && stack'[i + 1] == stack[i + 1] && stack'[j] == stack[j];
      assert Owns(stack, i, x);
    }
  }

  /** The instruction a shim on top is about to execute. */
  lemma TopStands(base: int, c: Config) returns (p: int)
    requires Inv(base, c) && Top(c.stack).Running?
    ensures var a := Top(c.stack);
      && RunningOk(base, c.stack, |c.stack| - 1, c.m) && EntryOk(base, a.kind, a.e)
      && At(base, a.kind, a.e, Result(a), p, c.m) && (a.done.Some? <==> p >= 14)
      && InCode(base, c.m.pc) && Fetch(c.m.pc - base) == InstrAt(a.kind, p)
      && (InstrAt(a.kind, p).CallReg? <==> p == 13) && (InstrAt(a.kind, p).Ret? <==> p == 23)
  {
    var a := Top(c.stack);
    assert RunningOk(base, c.stack, |c.stack| - 1, c.m);
    p := PointOf(base, a.kind, c.m.pc);
    FetchAtPoint(base, a.kind, p);
    OnlyPoint13Calls(a.kind, p);
  }

  lemma StandsAt(base: int, a: Activation, p: int, m: Cpu)
    requires a.Running? && At(base, a.kind, a.e, Result(a), p, m) && (a.done.Some? <==> p >= 14)
    ensures Stands(base, a, m)
  {
  }

  lemma InstrFacts(base: int, c: Config, c': Config)
    requires Inv(base, c) && Next(base, c, ShimInstr, c')
    ensures RunningOk(base, c'.stack, |c.stack| - 1, c'.m)
    ensures Respects(base, c.stack, c.m.mem, c'.m.mem)
  {
    var a := Top(c.stack);
    var p := TopStands(base, c);
    StepAdvances(base, a.kind, a.e, Result(a), p, c.m);
    StandsAt(base, a, Successor(a.kind, a.e, p), c'.m);
    OwnFrameRespects(base, c, c'.m.mem);
  }

  lemma ShimInstrKeepsInv(base: int, c: Config, c': Config)
    requires Inv(base, c) && Next(base, c, ShimInstr, c')
    ensures Inv(base, c')
  {
    var n := |c.stack| - 1;
    InstrFacts(base, c, c');
    assert AllRunningOk(base, c') by {
      PrefixKept(base, c, n - 1, c');
    }
  }

  lemma CallFacts(base: int, c: Config, c': Config)
    requires Inv(base, c) && Next(base, c, ServiceCall, c')
    ensures Top(c.stack).Running? && Top(c.stack).done.None?
    ensures ServiceEntered(base, Top(c.stack).kind, Top(c.stack).e, c'.m)
    ensures RunningOk(base, c'.stack, |c.stack| - 1, c'.m)
    ensures Respects(base, c.stack, c.m.mem, c'.m.mem)
  {
    var a := Top(c.stack);
    var p := TopStands(base, c);
    CallEntersService(base, a.kind, a.e, Result(a), c.m);
    OwnFrameRespects(base, c, c'.m.mem);
  }

  lemma ServiceCallKeepsRunning(base: int, c: Config, c': Config)
    requires Inv(base, c) && Next(base, c, ServiceCall, c')
    ensures AllRunningOk(base, c')
  {
    CallFacts(base, c, c');
    PrefixKept(base, c, |c.stack| - 2, c');
  }

  lemma ServiceCallKeepsInv(base: int, c: Config, c': Config)
    requires Inv(base, c) && Next(base, c, ServiceCall, c')
    ensures Inv(base, c')
  {
    ServiceCallKeepsRunning(base, c, c');
    ApartKept(c.stack, c'.stack, |c.stack|);
  }

  lemma ReturnFacts(base: int, c: Config, c': Config)
    requires Inv(base, c) && Next(base, c, ShimReturn, c')
    ensures Top(c.stack).Running? && Top(c.stack).done.Some?
    ensures ShimReturned(Top(c.stack).kind, Top(c.stack).e, Result(Top(c.stack)), c'.m)
    ensures c'.m.mem == c.m.mem
  {
    var a := Top(c.stack);
    var p := TopStands(base, c);
    ReturnLeavesShim(base, a.kind, a.e, Result(a), c.m);
  }

  lemma ShimReturnKeepsInv(base: int, c: Config, c': Config)
    requires Inv(base, c) && Next(base, c, ShimReturn, c')
    ensures Inv(base, c')
  {
    var n := |c.stack| - 1;
    ReturnFacts(base, c, c');
    assert RunningOk(base, c.stack, n, c.m);
    PrefixKept(base, c, n - 1, c');
    ApartKept(c.stack, c'.stack, n);
  }

  lemma ForeignInstrKeepsInv(base: int, c: Config, c': Config)
    requires Inv(base, c) && Next(base, c, ForeignInstr, c')
    ensures Inv(base, c')
  {
    PrefixKept(base, c, |c.stack| - 1, c');
  }

  lemma CallShimKeepsInv(base: int, c: Config, k: Kind, ret: Word, c': Config)
    requires Inv(base, c) && Next(base, c, CallShim(k, ret), c')
    ensures Inv(base, c')
  {
    var n := |c.stack|;
    assert InFrame(k, c'.m, c'.m.rsp);
    PrefixKept(base, c, n - 1, c');
    assert RunningOk(base, c'.stack, n, c'.m);
    forall i, x | 0 <= i < n && Owns(c'.stack, i, x)
      ensures Owns(c.stack, i, x)
    {
      assert c'.stack[i] == c.stack[i];
    }
  }

  lemma ForeignReturnKeepsRunning(base: int, c: Config, c': Config)
    requires Inv(base, c) && Next(base, c, ForeignReturn, c')
    ensures AllRunningOk(base, c')
  {
    var n := |c.stack| - 2;
    assert RunningOk(base, c.stack, n, c.m);
    assert Window(c.stack, n);
    PrefixKept(base, c, n - 1, c');
    assert RunningOk(base, c'.stack, n, c'.m);
  }

  lemma ForeignReturnKeepsInv(base: int, c: Config, c': Config)
    requires Inv(base, c) && Next(base, c, ForeignReturn, c')
    ensures Inv(base, c')
  {
    var n := |c.stack| - 2;
    ForeignReturnKeepsRunning(base, c, c');
    assert c'.stack[..n] == c.stack[..n];
    assert Apart(c'.stack) by {
      forall i, x | 0 <= i < n && Owns(c'.stack, i, x)
        ensures Owns(c.stack, i, x)
      {
        assert c'.stack[i + 1].Foreign?;
      }
    }
  }

  /** The stack after a service's return: its shim, with the outcome noted, and all beneath as they were. */
  lemma ReturnedStack(base: int, c: Config, c': Config)
    requires Linked(c.stack) && Next(base, c, ForeignReturn, c')
    ensures var n := |c.stack| - 2;
      && |c'.stack| == n + 1 && c'.stack[..n] == c.stack[..n]
      && Window(c.stack, n) && c'.stack[n] == c.stack[n].(done := Some(OutcomeOf(c'.m)))
      && (forall a :: a in c'.stack ==> a in c.stack || a == c'.stack[n])
    ensures forall i :: Window(c'.stack, i) ==> i < |c'.stack| - 1 && Window(c.stack, i) && c'.stack[i] == c.stack[i]
  {
    var n := |c.stack| - 2;
    assert c.stack[n + 1] == Top(c.stack) && c.stack[n] == Top(Below(c.stack));
    forall a | a in c'.stack
      ensures a in c.stack || a == c'.stack[n]
    {
      if a != c'.stack[n] {
        assert a in c'.stack[..n];
      }
    }
    forall i | Window(c'.stack, i)
      ensures i < n && Window(c.stack, i)
    {
      assert c'.stack[i] == c.stack[i] && c'.stack[i + 1].Foreign?;
    }
  }

  lemma InterruptKeepsRunning(base: int, c: Config, c': Config)
    requires Inv(base, c) && Next(base, c, Interrupt, c')
    ensures AllRunningOk(base, c')
  {
    var n := |c.stack| - 1;
    forall i, x | Owns(c.stack, i, x)
      ensures Owns(c'.stack, i, x)
    {
    }
    var a := c.stack[n];
    if a.Running? {
      assert RunningOk(base, c.stack, n, c.m);
      PrefixKept(base, c, n - 1, c');
      forall x | c.m.rsp <= x < FrameTop(a.kind, a.e)
        ensures Protected(c'.stack, x)
      {
        assert Owns(c'.stack, n, x);
      }
      AtFrame(base, a.kind, a.e, Result(a), PointOf(base, a.kind, c.m.pc), c.m, c'.m.mem);
      assert RunningOk(base, c'.stack, n, c'.m);
    } else {
      PrefixKept(base, c, n, c');
    }
  }

  lemma InterruptKeepsInv(base: int, c: Config, c': Config)
    requires Inv(base, c) && Next(base, c, Interrupt, c')
    ensures Inv(base, c')
  {
    InterruptKeepsRunning(base, c, c');
    ApartKept(c.stack, c'.stack, |c.stack|);
  }

  lemma InterruptReturnKeepsRunning(base: int, c: Config, c': Config)
    requires Inv(base, c) && Next(base, c, InterruptReturn, c')
    ensures AllRunningOk(base, c')
  {
    var n := |c.stack| - 2;
    if c.stack[n].Running? {
      assert RunningOk(base, c.stack, n, c.m);
      PrefixKept(base, c, n - 1, c');
      assert RunningOk(base, c'.stack, n, c'.m);
    } else {
      PrefixKept(base, c, n, c');
    }
  }

  lemma InterruptReturnKeepsInv(base: int, c: Config, c': Config)
    requires Inv(base, c) && Next(base, c, InterruptReturn, c')
    ensures Inv(base, c')
  {
    var n := |c.stack| - 2;
    InterruptReturnKeepsRunning(base, c, c');
    ApartKept(c.stack, c'.stack, n + 1);
  }
}
