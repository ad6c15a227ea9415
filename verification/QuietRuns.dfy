/**
 Runs in which code above an open window leaves CR0 alone, or at least its WP bit: then WP stays clear in every
 window, whatever inner shims do, and every shim gives its caller's CR0 back.
 */
module QuietRuns {
  import opened Wrappers
  import opened Words
  import opened Machine
  import opened Shim
  import opened Nesting
  import opened NestedRuns
  import opened CalmRuns

  /** What is watched of CR0: all of it, or WP only. */
  function Seen(whole: bool, cr0: Word): Word {
    if whole then cr0 else if WriteProtect(cr0) then 1 else 0
  }

  /** A run in which no code but the shims changes what is watched of CR0 while a window is open. */
  ghost predicate QuietRun(whole: bool, cs: seq<Config>, evs: seq<Event>)
    requires |cs| == |evs| + 1
  {
    forall n :: 0 <= n < |evs| && evs[n].ForeignInstr? && AnyWindow(cs[n].stack) ==>
      Seen(whole, cs[n + 1].m.cr0) == Seen(whole, cs[n].m.cr0)
  }

  /** Above an open window CR0 is seen as the shim that opened it left it, also by the shims entered there. */
  ghost predicate WindowQuiet(whole: bool, c: Config, i: int) {
    Window(c.stack, i) ==>
      && Seen(whole, c.m.cr0) == Seen(whole, ClearWp(c.stack[i].e.cr0))
      && forall j :: i < j < |c.stack| && c.stack[j].Running? ==> Seen(whole, c.stack[j].e.cr0) == Seen(whole, c.m.cr0)
  }

  ghost predicate DoneQuiet(whole: bool, a: Activation) {
    a.Running? && a.done.Some? ==> Seen(whole, a.done.value.cr0) == Seen(whole, ClearWp(a.e.cr0))
  }

  ghost predicate Quiet(whole: bool, c: Config) {
    && (forall i :: WindowQuiet(whole, c, i))
    && (forall a :: a in c.stack ==> DoneQuiet(whole, a))
  }

  /** A shim entered in a quiet window sees CR0 unchanged at each of its instructions. */
  lemma SeenInWindow(whole: bool, base: int, a: Activation, m: Cpu, w: Word)
    requires a.Running? && Stands(base, a, m) && DoneQuiet(whole, a)
    requires Seen(whole, a.e.cr0) == Seen(whole, ClearWp(w))
    ensures Seen(whole, m.cr0) == Seen(whole, a.e.cr0)
    ensures Seen(whole, ClearWp(a.e.cr0)) == Seen(whole, a.e.cr0)
    ensures a.done.Some? ==> Seen(whole, RestoredCr0(a.e, a.done.value)) == Seen(whole, a.e.cr0)
  {
    ClearWpEffect(w);
    ClearWpEffect(a.e.cr0);
  }

  /** Every window of c' was open in c, nothing was entered, and CR0 is seen as before. */
  lemma QuietKept(whole: bool, c: Config, c': Config)
    requires Quiet(whole, c)
    requires forall a :: a in c'.stack ==> a in c.stack || DoneQuiet(whole, a)
    requires forall i :: Window(c'.stack, i) ==>
      && Window(c.stack, i) && c'.stack[i].e == c.stack[i].e && Seen(whole, c'.m.cr0) == Seen(whole, c.m.cr0)
    requires forall j :: 0 <= j < |c'.stack| && c'.stack[j].Running? ==>
      (j < |c.stack| && c.stack[j].Running? && c'.stack[j].e == c.stack[j].e)
      || Seen(whole, c'.stack[j].e.cr0) == Seen(whole, c'.m.cr0)
    ensures Quiet(whole, c')
  {
    forall i
      ensures WindowQuiet(whole, c', i)
    {
      assert WindowQuiet(whole, c, i);
    }
  }

  lemma NextKeepsQuiet(whole: bool, base: int, c: Config, ev: Event, c': Config)
    requires Inv(base, c) && Quiet(whole, c) && Next(base, c, ev, c')
    requires ev.ForeignInstr? && AnyWindow(c.stack) ==> Seen(whole, c'.m.cr0) == Seen(whole, c.m.cr0)
    ensures Quiet(whole, c')
  {
    match ev
    case ShimInstr =>
      InstrFacts(base, c, c');
      ShimStepSeen(whole, base, c, c');
      QuietKept(whole, c, c');
    case ServiceCall => ServiceCallKeepsQuiet(whole, base, c, c');
    case ShimReturn =>
      ReturnSeen(whole, base, c, c');
      QuietKept(whole, c, c');
    case ForeignReturn => ForeignReturnKeepsQuiet(whole, base, c, c');
    case _ => QuietKept(whole, c, c');
  }

  lemma ShimStepSeen(whole: bool, base: int, c: Config, c': Config)
    requires Inv(base, c) && Quiet(whole, c) && Next(base, c, ShimInstr, c')
    ensures AnyWindow(c.stack) ==> Seen(whole, c'.m.cr0) == Seen(whole, c.m.cr0)
  {
    InstrFacts(base, c, c');
    var a := Top(c.stack);
    if i :| Window(c.stack, i) {
      assert WindowQuiet(whole, c, i);
      assert a in c.stack;
      SeenInWindow(whole, base, a, c'.m, c.stack[i].e.cr0);
    }
  }

  /** What is seen of a CR0 that a window has cleared is what is seen after clearing it again. */
  lemma SeenCleared(whole: bool, inner: Word, outer: Word)
    requires Seen(whole, inner) == Seen(whole, ClearWp(outer))
    ensures Seen(whole, ClearWp(inner)) == Seen(whole, inner)
  {
    ClearWpEffect(outer);
    ClearWpEffect(inner);
  }

  lemma ServiceCallKeepsQuiet(whole: bool, base: int, c: Config, c': Config)
    requires Inv(base, c) && Quiet(whole, c) && Next(base, c, ServiceCall, c')
    ensures Quiet(whole, c')
  {
    CallFacts(base, c, c');
    var n := |c.stack| - 1;
    forall i
      ensures WindowQuiet(whole, c', i)
    {
      if Window(c'.stack, i) && i < n {
        assert WindowQuiet(whole, c, i) && Window(c.stack, i);
        SeenCleared(whole, c.stack[n].e.cr0, c.stack[i].e.cr0);
      }
    }
  }

  lemma ReturnSeen(whole: bool, base: int, c: Config, c': Config)
    requires Inv(base, c) && Quiet(whole, c) && Next(base, c, ShimReturn, c')
    ensures AnyWindow(c.stack) ==> Seen(whole, c'.m.cr0) == Seen(whole, c.m.cr0)
  {
    ReturnFacts(base, c, c');
    var n := |c.stack| - 1;
    var a := c.stack[n];
    assert RunningOk(base, c.stack, n, c.m);
    if i :| Window(c.stack, i) {
      assert WindowQuiet(whole, c, i) && a in c.stack;
      SeenInWindow(whole, base, a, c.m, c.stack[i].e.cr0);
    }
  }

  lemma ForeignReturnKeepsQuiet(whole: bool, base: int, c: Config, c': Config)
    requires Inv(base, c) && Quiet(whole, c) && Next(base, c, ForeignReturn, c')
    ensures Quiet(whole, c')
  {
    var n := |c.stack| - 2;
    ReturnedStack(base, c, c');
    assert WindowQuiet(whole, c, n);
    assert forall j :: 0 <= j < n ==> c'.stack[j] == c.stack[j];
    QuietKept(whole, c, c');
  }

  lemma {:induction false} RunKeepsQuiet(whole: bool, base: int, cs: seq<Config>, evs: seq<Event>, n: nat)
    requires IsRun(base, cs, evs) && QuietRun(whole, cs, evs) && n < |cs|
    ensures Quiet(whole, cs[n])
  {
    if n > 0 {
      RunKeepsQuiet(whole, base, cs, evs, n - 1);
      RunKeepsInv(base, cs, evs, n - 1);
      NextKeepsQuiet(whole, base, cs[n - 1], evs[n - 1], cs[n]);
    }
  }

  /**
   While any shim is inside its service WP is clear, at every depth above it and after any inner shims, if no
   other code sets WP there; if none writes CR0, all of CR0 is as that shim left it.
   */
  lemma WindowHoldsThroughout(whole: bool, base: int, cs: seq<Config>, evs: seq<Event>, n: nat, i: int)
    requires IsRun(base, cs, evs) && QuietRun(whole, cs, evs) && n < |cs| && Window(cs[n].stack, i)
    ensures !WriteProtect(cs[n].m.cr0)
    ensures whole ==> cs[n].m.cr0 == ClearWp(cs[n].stack[i].e.cr0)
    ensures CalmRun(cs, evs) ==> !cs[n].m.flags.intr
  {
    if CalmRun(cs, evs) {
      InterruptsOffInService(base, cs, evs, n, i);
    }
    RunKeepsInv(base, cs, evs, n);
    RunKeepsQuiet(whole, base, cs, evs, n);
    assert WindowQuiet(whole, cs[n], i);
    ClearWpEffect(cs[n].stack[i].e.cr0);
  }

  /** In a quiet run every matched call gives back its caller's CR0, or at least its WP. */
  lemma QuietCallRestores(whole: bool, base: int, cs: seq<Config>, evs: seq<Event>, i: nat, j: nat)
    requires IsRun(base, cs, evs) && QuietRun(whole, cs, evs) && j < |evs|
    requires Pending(cs, i, j) && evs[i].CallShim? && |cs[j + 1].stack| == |cs[i].stack|
    ensures WriteProtect(cs[j + 1].m.cr0) == WriteProtect(cs[i].m.cr0)
    ensures whole ==> cs[j + 1].m.cr0 == cs[i].m.cr0
  {
    RunKeepsInv(base, cs, evs, j);
    RunKeepsQuiet(whole, base, cs, evs, j);
    PendingCall(base, cs, evs, i, j);
    var a := cs[j].stack[|cs[i].stack|];
    OnlyReturnPops(base, cs[j], evs[j], cs[j + 1], |cs[i].stack|);
    ReturnFacts(base, cs[j], cs[j + 1]);
    assert a in cs[j].stack && DoneQuiet(whole, a);
    ClearWpEffect(a.e.cr0);
  }

  /**
   In a quiet run an interrupted shim has its caller's CR0, or at least its WP, unless its own service returned with IF
   set; in a run that is also calm none does.
   */
  lemma QuietHandlersSeeCallersCr0(whole: bool, base: int, cs: seq<Config>, evs: seq<Event>, n: nat)
    requires IsRun(base, cs, evs) && QuietRun(whole, cs, evs) && n < |evs| && evs[n].Interrupt?
    ensures |cs[n].stack| > 0
    ensures var a := Top(cs[n].stack); a.Running? && (DoneCalm(a) || CalmRun(cs, evs)) ==>
      && WriteProtect(cs[n].m.cr0) == WriteProtect(a.e.cr0)
      && (whole ==> cs[n].m.cr0 == a.e.cr0)
  {
    HandlersSeeCallersCr0(base, cs, evs, n);
    RunKeepsQuiet(whole, base, cs, evs, n);
    var a := Top(cs[n].stack);
    assert a in cs[n].stack && DoneQuiet(whole, a);
    if CalmRun(cs, evs) {
      RunKeepsCalm(base, cs, evs, n);
    }
    if a.Running? {
      ClearWpEffect(a.e.cr0);
    }
  }
}
