/** What every run of the whole machine keeps, however deeply shims, services and handlers nest. */
module NestedRuns {
  import opened Wrappers
  import opened Words
  import opened Machine
  import opened Shim
  import opened Nesting

  ghost predicate IsRun(base: int, cs: seq<Config>, evs: seq<Event>) {
    && |cs| == |evs| + 1
    && Init(base, cs[0])
    && forall i :: 0 <= i < |evs| ==> Next(base, cs[i], evs[i], cs[i + 1])
  }

  lemma NextKeepsInv(base: int, c: Config, ev: Event, c': Config)
    requires Inv(base, c) && Next(base, c, ev, c')
    ensures Inv(base, c')
  {
    match ev
    case ShimInstr => ShimInstrKeepsInv(base, c, c');
    case ServiceCall => ServiceCallKeepsInv(base, c, c');
    case ShimReturn => ShimReturnKeepsInv(base, c, c');
    case ForeignInstr => ForeignInstrKeepsInv(base, c, c');
    case CallShim(k, ret) => CallShimKeepsInv(base, c, k, ret, c');
    case ForeignReturn => ForeignReturnKeepsInv(base, c, c');
    case Interrupt => InterruptKeepsInv(base, c, c');
    case InterruptReturn => InterruptReturnKeepsInv(base, c, c');
  }

  lemma {:induction false} RunKeepsInv(base: int, cs: seq<Config>, evs: seq<Event>, n: nat)
    requires IsRun(base, cs, evs) && n < |cs|
    ensures Inv(base, cs[n])
  {
    if n == 0 {
      InitInv(base, cs[0]);
    } else {
      RunKeepsInv(base, cs, evs, n - 1);
      NextKeepsInv(base, cs[n - 1], evs[n - 1], cs[n]);
    }
  }

  /**
   What an interrupt finds, shim by shim.  Before its call a shim still has its caller's CR0; after it, CR0 is put back
   before interrupts are turned on, unless its own service returned with IF set: then the handler may come first and
   find what that service left.
   */
  lemma HandlersSeeCallersCr0(base: int, cs: seq<Config>, evs: seq<Event>, n: nat)
    requires IsRun(base, cs, evs) && n < |evs| && evs[n].Interrupt?
    ensures |cs[n].stack| > 0 && cs[n + 1].m.cr0 == cs[n].m.cr0
    ensures var a := Top(cs[n].stack); a.Running? && a.done.None? ==> a.e.flags.intr && cs[n].m.cr0 == a.e.cr0
    ensures var a := Top(cs[n].stack); a.Running? && a.done.Some? ==>
      var o := a.done.value;
      if o.flags.intr then cs[n].m.cr0 == o.cr0 || cs[n].m.cr0 == RestoredCr0(a.e, o)
      else
        && a.e.flags.intr && cs[n].m.cr0 == RestoredCr0(a.e, o)
        && (WriteProtect(a.e.cr0) ==> cs[n].m.cr0 == a.e.cr0)
  {
    RunKeepsInv(base, cs, evs, n);
    var c := cs[n];
    var a := Top(c.stack);
    if a.Running? {
      assert RunningOk(base, c.stack, |c.stack| - 1, c.m);
    }
  }

  /** It may indeed: a service that returns with IF set leaves WP clear for a handler that comes right away. */
  lemma HandlerMayComeFirst(base: int, c: Config, handler: int) returns (c': Config)
    requires Inv(base, c) && !InBlob(base, handler)
    requires var a := Top(c.stack); a.Running? && a.done.Some? && c.m.pc == Address(base, a.kind, 14)
    requires var a := Top(c.stack); a.done.value.flags.intr && !WriteProtect(a.done.value.cr0)
    ensures Next(base, c, Interrupt, c') && !WriteProtect(c'.m.cr0)
  {
    var a := Top(c.stack);
    assert RunningOk(base, c.stack, |c.stack| - 1, c.m);
    c' := Config(c.m.SetIf(false).(pc := handler), c.stack + [Foreign(c.m, true)]);
  }

  /** Every service call, at any depth, gets its shim's arguments, an aligned stack, WP clear and interrupts off. */
  lemma ServicesGetTheirArguments(base: int, cs: seq<Config>, evs: seq<Event>, n: nat)
    requires IsRun(base, cs, evs) && n < |evs| && evs[n].ServiceCall?
    ensures |cs[n].stack| > 0
    ensures var a := Top(cs[n].stack); a.Running? && ServiceEntered(base, a.kind, a.e, cs[n + 1].m)
    ensures var e, s := Top(cs[n].stack).e, cs[n + 1].m;
      && s.rcx == e.rcx && s.rdx == e.rdx && s.r8 == e.r8 && s.r9 == e.r9
      && (!Top(cs[n].stack).kind.GetNextVariableName? ==> Load(s.mem, s.rsp + 0x28) == Load(e.mem, e.rsp + 0x28))
      && s.rsp % 16 == 8 && !WriteProtect(s.cr0) && !s.flags.intr && SameOtherFlags(e.flags, s.flags)
  {
    RunKeepsInv(base, cs, evs, n);
    CallFacts(base, cs[n], cs[n + 1]);
    ClearWpEffect(Top(cs[n].stack).e.cr0);
  }

  /** A shim on top can always execute its next instruction. */
  lemma ShimsNeverStick(base: int, cs: seq<Config>, evs: seq<Event>, n: nat) returns (ev: Event, c': Config)
    requires IsRun(base, cs, evs) && n < |cs|
    requires |cs[n].stack| > 0 && Top(cs[n].stack).Running?
    ensures ev.ShimInstr? || ev.ServiceCall? || ev.ShimReturn?
    ensures Next(base, cs[n], ev, c')
  {
    RunKeepsInv(base, cs, evs, n);
    var c := cs[n];
    var p := TopStands(base, c);
    var m := Step(base, c.m);
    match Fetch(c.m.pc - base)
    case CallReg(_) => ev, c' := ServiceCall, Config(m, c.stack + [Foreign(m, false)]);
    case Ret => ev, c' := ShimReturn, Config(m, Below(c.stack));
    case _ => ev, c' := ShimInstr, Config(m, c.stack);
  }

  /** An activation and all beneath it stay put until it is popped. */
  lemma ActivationStays(base: int, c: Config, ev: Event, c': Config, d: nat)
    requires Next(base, c, ev, c') && d < |c.stack| && d < |c'.stack| && c.stack[d].Running?
    ensures c'.stack[..d] == c.stack[..d]
    ensures c'.stack[d].Running? && c'.stack[d].kind == c.stack[d].kind && c'.stack[d].e == c.stack[d].e
    ensures c'.stack[d].done != c.stack[d].done ==>
      ev.ForeignReturn? && |c'.stack| == d + 1 && c'.stack[d].done == Some(OutcomeOf(c.m))
  {
  }

  /** Between the call of a shim at step i and step j its activation is still the one pushed at i. */
  ghost predicate Pending(cs: seq<Config>, i: nat, j: nat) {
    && i < j < |cs|
    && forall t :: i < t <= j ==> |cs[t].stack| > |cs[i].stack|
  }

  /** The service of the shim called at step i returned with outcome o at some step before j. */
  ghost predicate ServiceGave(cs: seq<Config>, evs: seq<Event>, i: nat, j: nat, o: Outcome) {
    exists t :: i < t < j <= |evs| < |cs| && evs[t].ForeignReturn?
      && |cs[t + 1].stack| == |cs[i].stack| + 1 && OutcomeOf(cs[t].m) == o
  }

  lemma StillGave(cs: seq<Config>, evs: seq<Event>, i: nat, j: nat, o: Outcome)
    requires 0 < j <= |evs| < |cs| && ServiceGave(cs, evs, i, j - 1, o)
    ensures ServiceGave(cs, evs, i, j, o)
  {
  }

  lemma {:induction false} PendingCall(base: int, cs: seq<Config>, evs: seq<Event>, i: nat, j: nat)
    requires IsRun(base, cs, evs) && Pending(cs, i, j) && evs[i].CallShim?
    ensures var d := |cs[i].stack|;
      && cs[j].stack[..d] == cs[i].stack
      && cs[j].stack[d].Running? && cs[j].stack[d].e == cs[i + 1].m && cs[j].stack[d].kind == evs[i].kind
      && (cs[j].stack[d].done.Some? ==> ServiceGave(cs, evs, i, j, cs[j].stack[d].done.value))
    decreases j
  {
    var d := |cs[i].stack|;
    if j > i + 1 {
      PendingCall(base, cs, evs, i, j - 1);
      ActivationStays(base, cs[j - 1], evs[j - 1], cs[j], d);
      if cs[j].stack[d].done.Some? {
        var o := cs[j].stack[d].done.value;
        if cs[j].stack[d].done == cs[j - 1].stack[d].done {
          StillGave(cs, evs, i, j, o);
        } else {
          assert evs[j - 1].ForeignReturn?;
        }
      }
    }
  }

  /**
   Main result.  Take any run, and in it any call of a shim together with its matching return, with anything
   in between: interrupts, services and handlers calling shims again to any depth, services writing CR0 and IF.
   The caller gets back its RBX, RSI, RSP and its own activation stack, continues at its return address, and RAX
   is what the service of that very shim returned.  CR0 is the caller's if WP was set in it and what that service
   left otherwise; IF is set if the caller had it set and what that service left otherwise.
   */
  lemma MatchedCallRestores(base: int, cs: seq<Config>, evs: seq<Event>, i: nat, j: nat) returns (o: Outcome)
    requires IsRun(base, cs, evs) && j < |evs|
    requires Pending(cs, i, j) && evs[i].CallShim? && |cs[j + 1].stack| == |cs[i].stack|
    ensures ServiceGave(cs, evs, i, j, o)
    ensures var before := cs[i].m;
      var after := cs[j + 1].m;
      && evs[j].ShimReturn?
      && cs[j + 1].stack == cs[i].stack
      && after.flags.intr == (before.flags.intr || o.flags.intr)
      && after.rbx == before.rbx && after.rsi == before.rsi && after.rsp == before.rsp
      && after.pc == evs[i].ret
      && after.rax == o.rax && after.rcx == o.rcx && after.rdx == o.rdx && after.r8 == o.r8 && after.r9 == o.r9
      && SameOtherFlags(o.flags, after.flags)
      && after.cr0 == (if WriteProtect(before.cr0) then before.cr0 else o.cr0)
  {
    var d := |cs[i].stack|;
    var c := cs[j];
    RunKeepsInv(base, cs, evs, j);
    PendingCall(base, cs, evs, i, j);
    var a := c.stack[d];
    OnlyReturnPops(base, c, evs[j], cs[j + 1], d);
    ReturnFacts(base, c, cs[j + 1]);
    assert RunningOk(base, c.stack, d, c.m);
    assert a.e.Top() == evs[i].ret;
    assert a.e.rsp == Wrap(cs[i].m.rsp - 8);
    o := a.done.value;
  }

  lemma OnlyReturnPops(base: int, c: Config, ev: Event, c': Config, d: nat)
    requires Next(base, c, ev, c') && d < |c.stack| && |c'.stack| == d && c.stack[d].Running?
    ensures ev.ShimReturn? && |c.stack| == d + 1
  {
  }
}
