/**
 Runs in which code above an open window leaves IF alone: then interrupts stay off in every window, whatever inner
 shims do, no handler ever sees a CR0 that a shim has cleared, and every shim gives its caller's IF back.
 */
module CalmRuns {
  import opened Wrappers
  import opened Words
  import opened Machine
  import opened Shim
  import opened Nesting
  import opened NestedRuns

  /** A run in which no code but the shims changes IF while a window is open. */
  ghost predicate CalmRun(cs: seq<Config>, evs: seq<Event>)
    requires |cs| == |evs| + 1
  {
    forall n :: 0 <= n < |evs| && evs[n].ForeignInstr? && AnyWindow(cs[n].stack) ==>
      cs[n + 1].m.flags.intr == cs[n].m.flags.intr
  }

  ghost predicate Enclosed(a: Activation) {
    match a
    case Running(_, e, _) => !e.flags.intr
    case Foreign(_, interrupted) => !interrupted
  }

  /** Everything above an open window finds interrupts off, and nothing in it is an interrupt. */
  ghost predicate WindowCalm(c: Config, i: int) {
    Window(c.stack, i) ==> !c.m.flags.intr && forall j :: i < j < |c.stack| ==> Enclosed(c.stack[j])
  }

  ghost predicate DoneCalm(a: Activation) {
    a.Running? && a.done.Some? ==> !a.done.value.flags.intr
  }

  ghost predicate Calm(c: Config) {
    && (forall i :: WindowCalm(c, i))
    && (forall a :: a in c.stack ==> DoneCalm(a))
  }

  /** A shim entered with interrupts off turns them on at none of its instructions. */
  lemma InterruptsStayOff(base: int, a: Activation, m: Cpu)
    requires a.Running? && Stands(base, a, m) && DoneCalm(a) && !a.e.flags.intr
    ensures !m.flags.intr
  {
  }

  /** Windows of c' were open in c and interrupts are still off; what was entered since is enclosed too. */
  lemma CalmKept(c: Config, c': Config)
    requires Calm(c)
    requires forall a :: a in c'.stack ==> a in c.stack || DoneCalm(a)
    requires forall i :: Window(c'.stack, i) ==> Window(c.stack, i) && !c'.m.flags.intr
    requires AnyWindow(c'.stack) ==> forall j :: 0 <= j < |c'.stack| ==>
      (j < |c.stack| && (Enclosed(c.stack[j]) ==> Enclosed(c'.stack[j]))) || Enclosed(c'.stack[j])
    ensures Calm(c')
  {
    forall i
      ensures WindowCalm(c', i)
    {
      assert WindowCalm(c, i);
    }
  }

  lemma ShimInstrKeepsCalm(base: int, c: Config, c': Config)
    requires Inv(base, c) && Calm(c) && Next(base, c, ShimInstr, c')
    ensures Calm(c')
  {
    InstrFacts(base, c, c');
    var n := |c.stack| - 1;
    forall i | Window(c'.stack, i)
      ensures !c'.m.flags.intr
    {
      assert WindowCalm(c, i) && Enclosed(c.stack[n]);
      assert c.stack[n] in c.stack;
      InterruptsStayOff(base, c'.stack[n], c'.m);
    }
    CalmKept(c, c');
  }

  lemma ServiceCallKeepsCalm(base: int, c: Config, c': Config)
    requires Inv(base, c) && Calm(c) && Next(base, c, ServiceCall, c')
    ensures Calm(c')
  {
    CallFacts(base, c, c');
    var n := |c.stack| - 1;
    forall i
      ensures WindowCalm(c', i)
    {
      if Window(c'.stack, i) && i < n {
        assert WindowCalm(c, i) && Window(c.stack, i);
      }
    }
  }

  lemma ShimReturnKeepsCalm(base: int, c: Config, c': Config)
    requires Inv(base, c) && Calm(c) && Next(base, c, ShimReturn, c')
    ensures Calm(c')
  {
    ReturnFacts(base, c, c');
    var n := |c.stack| - 1;
    assert c.stack[n] in c.stack;
    forall i | Window(c'.stack, i)
      ensures Window(c.stack, i) && !c'.m.flags.intr
    {
      assert Window(c.stack, i) && WindowCalm(c, i) && Enclosed(c.stack[n]);
    }
    CalmKept(c, c');
  }

  lemma CallShimKeepsCalm(base: int, c: Config, k: Kind, ret: Word, c': Config)
    requires Inv(base, c) && Calm(c) && Next(base, c, CallShim(k, ret), c')
    ensures Calm(c')
  {
    forall i | Window(c'.stack, i)
      ensures Window(c.stack, i) && !c'.m.flags.intr
    {
      assert Window(c.stack, i) && WindowCalm(c, i);
    }
    CalmKept(c, c');
  }

  lemma ForeignReturnKeepsCalm(base: int, c: Config, c': Config)
    requires Inv(base, c) && Calm(c) && Next(base, c, ForeignReturn, c')
    ensures Calm(c')
  {
    var n := |c.stack| - 2;
    ReturnedStack(base, c, c');
    assert WindowCalm(c, n);
    assert forall j :: 0 <= j < n ==> c'.stack[j] == c.stack[j];
    CalmKept(c, c');
  }

  /** Interrupts arrive, and return, outside windows only. */
  lemma InterruptsKeepCalm(base: int, c: Config, ev: Event, c': Config)
    requires Calm(c) && Next(base, c, ev, c') && (ev.Interrupt? || ev.InterruptReturn?)
    ensures !AnyWindow(c.stack) && Calm(c')
  {
    forall i
      ensures !Window(c.stack, i)
    {
      assert WindowCalm(c, i);
      assert ev.InterruptReturn? ==> !Enclosed(Top(c.stack));
    }
    assert forall i :: Window(c'.stack, i) ==> Window(c.stack, i);
    CalmKept(c, c');
  }

  lemma NextKeepsCalm(base: int, c: Config, ev: Event, c': Config)
    requires Inv(base, c) && Calm(c) && Next(base, c, ev, c')
    requires ev.ForeignInstr? && AnyWindow(c.stack) ==> c'.m.flags.intr == c.m.flags.intr
    ensures Calm(c')
  {
    match ev
    case ShimInstr => ShimInstrKeepsCalm(base, c, c');
    case ServiceCall => ServiceCallKeepsCalm(base, c, c');
    case ShimReturn => ShimReturnKeepsCalm(base, c, c');
    case ForeignInstr =>
      assert forall i :: Window(c.stack, i) ==> WindowCalm(c, i);
      CalmKept(c, c');
    case CallShim(k, ret) => CallShimKeepsCalm(base, c, k, ret, c');
    case ForeignReturn => ForeignReturnKeepsCalm(base, c, c');
    case Interrupt => InterruptsKeepCalm(base, c, ev, c');
    case InterruptReturn => InterruptsKeepCalm(base, c, ev, c');
  }

  lemma {:induction false} RunKeepsCalm(base: int, cs: seq<Config>, evs: seq<Event>, n: nat)
    requires IsRun(base, cs, evs) && CalmRun(cs, evs) && n < |cs|
    ensures Calm(cs[n])
  {
    if n > 0 {
      RunKeepsCalm(base, cs, evs, n - 1);
      RunKeepsInv(base, cs, evs, n - 1);
      NextKeepsCalm(base, cs[n - 1], evs[n - 1], cs[n]);
    }
  }

  /** While any shim is inside its service, interrupts are off at every depth above it, and no handler runs there. */
  lemma InterruptsOffInService(base: int, cs: seq<Config>, evs: seq<Event>, n: nat, i: int)
    requires IsRun(base, cs, evs) && CalmRun(cs, evs) && n < |cs| && Window(cs[n].stack, i)
    ensures !cs[n].m.flags.intr
    ensures forall j :: i < j < |cs[n].stack| && cs[n].stack[j].Foreign? ==> !cs[n].stack[j].interrupted
  {
    RunKeepsCalm(base, cs, evs, n);
    assert WindowCalm(cs[n], i);
    assert forall j :: i < j < |cs[n].stack| ==> Enclosed(cs[n].stack[j]);
  }

  /**
   A handler never observes WP cleared by a shim: no service is under way, and a shim it interrupts either still
   has its caller's CR0 or has put CR0 back already.
   */
  lemma CalmHandlersSeeCallersCr0(base: int, cs: seq<Config>, evs: seq<Event>, n: nat)
    requires IsRun(base, cs, evs) && CalmRun(cs, evs) && n < |evs| && evs[n].Interrupt?
    ensures !AnyWindow(cs[n].stack)
    ensures |cs[n].stack| > 0
    ensures var a := Top(cs[n].stack); a.Running? ==>
      && a.e.flags.intr
      && cs[n].m.cr0 == (if a.done.Some? then RestoredCr0(a.e, a.done.value) else a.e.cr0)
      && (WriteProtect(a.e.cr0) ==> cs[n].m.cr0 == a.e.cr0)
  {
    RunKeepsCalm(base, cs, evs, n);
    InterruptsKeepCalm(base, cs[n], evs[n], cs[n + 1]);
    HandlersSeeCallersCr0(base, cs, evs, n);
    var a := Top(cs[n].stack);
    assert a in cs[n].stack && DoneCalm(a);
  }

  /** In a calm run every matched call gives back its caller's IF. */
  lemma CalmCallRestores(base: int, cs: seq<Config>, evs: seq<Event>, i: nat, j: nat)
    requires IsRun(base, cs, evs) && CalmRun(cs, evs) && j < |evs|
    requires Pending(cs, i, j) && evs[i].CallShim? && |cs[j + 1].stack| == |cs[i].stack|
    ensures cs[j + 1].m.flags.intr == cs[i].m.flags.intr
  {
    RunKeepsInv(base, cs, evs, j);
    RunKeepsCalm(base, cs, evs, j);
    PendingCall(base, cs, evs, i, j);
    var a := cs[j].stack[|cs[i].stack|];
    OnlyReturnPops(base, cs[j], evs[j], cs[j + 1], |cs[i].stack|);
    ReturnFacts(base, cs[j], cs[j + 1]);
    assert a in cs[j].stack && DoneCalm(a);
  }
}
