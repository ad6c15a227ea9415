/** Whole runs of support allocations, frees and image loads, against the list of blocks their callers hold. */
module SupportRuns {
  import opened Wrappers
  import opened Words
  import opened SupportMemory
  import opened ImagePlacement

  /**
   A block a caller holds; bytes is the size it asked for and will free with, None for an image, which nobody
   frees.
   */
  datatype Block = Block(address: nat, pages: nat, memoryType: nat, bytes: Option<nat>)

  /** The page map: what was there before the run, and the blocks held. */
  function Pages(others: PageMap, live: seq<Block>): PageMap {
    if live == [] then others
    else
      var b := live[|live| - 1];
      Allocated(Pages(others, live[..|live| - 1]), b.address / PAGE, b.pages, b.memoryType)
  }

  /** Every block was free when it was handed out, and ends at or below the top address. */
  predicate Ledger(others: PageMap, live: seq<Block>, top: nat) {
    live == [] ||
    var b := live[|live| - 1];
    Ledger(others, live[..|live| - 1], top) && Suitable(Pages(others, live[..|live| - 1]), b.address, b.pages, top)
  }

  function Without(live: seq<Block>, k: nat): seq<Block>
    requires k < |live|
  {
    live[..k] + live[k + 1..]
  }

  predicate Holds(b: Block, p: nat) {
    InRange(p, b.address / PAGE, b.pages)
  }

  ghost predicate HeldBy(live: seq<Block>, p: nat) {
    exists i :: 0 <= i < |live| && Holds(live[i], p)
  }

  /** Exactly the pages of the blocks are added, so the blocks are disjoint from what was there. */
  lemma {:induction false} PagesAre(others: PageMap, live: seq<Block>, top: nat, p: nat)
    requires Ledger(others, live, top)
    ensures p in Pages(others, live) <==> p in others || HeldBy(live, p)
    ensures p in others ==> !HeldBy(live, p)
  {
    if live != [] {
      var n := |live| - 1;
      PagesAre(others, live[..n], top, p);
      HoldsSplits(live, p);
      assert Holds(live[n], p) ==> p !in Pages(others, live[..n]);
    }
  }

  lemma HoldsSplits(live: seq<Block>, p: nat)
    requires live != []
    ensures var n := |live| - 1;
      && (HeldBy(live, p) <==> HeldBy(live[..n], p) || Holds(live[n], p))
  {
    var n := |live| - 1;
    if i :| 0 <= i < n && Holds(live[i], p) {
      assert Holds(live[..n][i], p);
    }
  }

  /** Blocks held at the same time share no page, and each ends at or below the top address. */
  lemma {:induction false} BlocksAreDisjoint(others: PageMap, live: seq<Block>, top: nat, i: nat, j: nat)
    requires Ledger(others, live, top) && i < j < |live|
    ensures live[i].address + live[i].pages * PAGE <= live[j].address
      || live[j].address + live[j].pages * PAGE <= live[i].address
    ensures live[i].address + live[i].pages * PAGE <= top && live[j].address + live[j].pages * PAGE <= top
  {
    var n := |live| - 1;
    if j < n {
      BlocksAreDisjoint(others, live[..n], top, i, j);
    } else {
      Located(others, live[..n], top, i);
      var a, b := live[i], live[n];
      assert live[..n][i] == a;
      var p, q := a.address / PAGE, b.address / PAGE;
      var common := if p <= q then q else p;
      PagesAre(others, live[..n], top, common);
      if common < p + a.pages && common < q + b.pages {
        assert Holds(live[..n][i], common);
      }
    }
  }

  lemma {:induction false} Located(others: PageMap, live: seq<Block>, top: nat, i: nat)
    requires Ledger(others, live, top) && i < |live|
    ensures live[i].address % PAGE == 0 && live[i].pages > 0 && live[i].address + live[i].pages * PAGE <= top
    ensures AllOwned(Pages(others, live), live[i].address / PAGE, live[i].pages)
  {
    var n := |live| - 1;
    if i < n {
      Located(others, live[..n], top, i);
      assert live[..n][i] == live[i];
    }
  }

  lemma Granted(others: PageMap, held: seq<Block>, b: Block, top: nat)
    requires Ledger(others, held, top) && Suitable(Pages(others, held), b.address, b.pages, top)
    ensures Ledger(others, held + [b], top)
    ensures Pages(others, held + [b]) == Allocated(Pages(others, held), b.address / PAGE, b.pages, b.memoryType)
  {
    assert (held + [b])[..|held|] == held;
  }

  /** Freeing any block in full, whatever was allocated since, leaves the ledger of the others. */
  lemma {:induction false} FreeInFull(others: PageMap, live: seq<Block>, top: nat, k: nat)
    requires Ledger(others, live, top) && k < |live|
    ensures Ledger(others, Without(live, k), top)
    ensures Freed(Pages(others, live), live[k].address, live[k].pages) == Pages(others, Without(live, k))
  {
    var n := |live| - 1;
    var held, b := live[..n], live[n];
    SplitLast(live, k);
    if k == n {
      AllocateThenFree(Pages(others, held), b);
    } else {
      FreeInFull(others, held, top, k);
      FreeBelow(others, held, b, top, k);
    }
  }

  lemma SplitLast(live: seq<Block>, k: nat)
    requires k < |live|
    ensures var n := |live| - 1;
      && live == live[..n] + [live[n]]
      && if k == n then Without(live, k) == live[..n]
         else live[..n][k] == live[k] && Without(live, k) == Without(live[..n], k) + [live[n]]
  {
  }

  lemma FreeBelow(others: PageMap, held: seq<Block>, b: Block, top: nat, k: nat)
    requires Ledger(others, held, top) && k < |held| && Suitable(Pages(others, held), b.address, b.pages, top)
    requires Ledger(others, Without(held, k), top)
    requires Freed(Pages(others, held), held[k].address, held[k].pages) == Pages(others, Without(held, k))
    ensures Ledger(others, Without(held, k) + [b], top)
    ensures Freed(Pages(others, held + [b]), held[k].address, held[k].pages) == Pages(others, Without(held, k) + [b])
  {
    Located(others, held, top, k);
    FreeCommutes(Pages(others, held), held[k], b, top);
    Granted(others, held, b, top);
    Granted(others, Without(held, k), b, top);
  }

  lemma AllocateThenFree(owned: PageMap, b: Block)
    requires b.address % PAGE == 0 && b.pages > 0 && AllFree(owned, b.address / PAGE, b.pages)
    ensures Freed(Allocated(owned, b.address / PAGE, b.pages, b.memoryType), b.address, b.pages) == owned
  {
  }

  lemma FreeCommutes(owned: PageMap, a: Block, b: Block, top: nat)
    requires a.address % PAGE == 0 && a.pages > 0 && AllOwned(owned, a.address / PAGE, a.pages)
    requires Suitable(owned, b.address, b.pages, top)
    ensures Freed(Allocated(owned, b.address / PAGE, b.pages, b.memoryType), a.address, a.pages)
      == Allocated(Freed(owned, a.address, a.pages), b.address / PAGE, b.pages, b.memoryType)
    ensures Suitable(Freed(owned, a.address, a.pages), b.address, b.pages, top)
  {
    forall p | InRange(p, a.address / PAGE, a.pages)
      ensures p in owned && !InRange(p, b.address / PAGE, b.pages)
    {
      assert p in owned;
    }
  }

  /** A free of a block's address leaves the ledger of the others iff its count is the block's. */
  lemma FreeBalancesExactlyWhen(others: PageMap, live: seq<Block>, top: nat, k: nat, count: nat)
    requires Ledger(others, live, top) && k < |live|
    ensures Freed(Pages(others, live), live[k].address, count) == Pages(others, Without(live, k)) <==>
      count == live[k].pages
  {
    FreeInFull(others, live, top, k);
    Located(others, live, top, k);
    var b := live[k];
    var owned := Pages(others, live);
    CountsDiffer(owned, b.address, b.pages, count);
  }

  lemma CountsDiffer(owned: PageMap, address: nat, pages: nat, count: nat)
    requires address % PAGE == 0 && pages > 0 && AllOwned(owned, address / PAGE, pages)
    ensures Freed(owned, address, count) == Freed(owned, address, pages) <==> count == pages
  {
    var first := address / PAGE;
    if count > 0 && count != pages && AllOwned(owned, first, count) {
      var p := if count < pages then first + count else first + pages;
      assert p in owned;
      assert p in Freed(owned, address, count) <==> p !in Freed(owned, address, pages);
    } else if count != pages {
      assert first in Freed(owned, address, count);
    }
  }

  datatype Request =
    | Code(size: nat)
    | Data(size: nat)
    /** The internal allocator with its arguments as it declares them. */
    | Declared(size: nat, memoryType: nat)
    | Free(block: nat)
    | Load(file: ImageFile)

  /** The page map, the blocks held, and the address the request that led here was granted, 0 if none. */
  datatype State = State(owned: PageMap, held: seq<Block>, granted: Word)

  /** The block of a granted request is handed to its holder, and nothing else changes. */
  predicate Grants(s: State, s': State, pages: nat, memoryType: nat, bytes: Option<nat>, top: nat) {
    if s'.granted == 0 then s' == s.(granted := 0)
    else
      && Suitable(s.owned, s'.granted, pages, top)
      && s'.owned == Allocated(s.owned, s'.granted / PAGE, pages, memoryType)
      && s'.held == s.held + [Block(s'.granted, pages, memoryType, bytes)]
  }

  predicate Loaded(file: ImageFile, info: ImageInfo, base: Word) {
    var aligned := AlignValue(base, info.sectionAlignment);
    file.loads(aligned) && file.relocates(aligned)
  }

  /** What each request does: the whole new state. */
  ghost predicate Serves(r: Request, s: State, s': State, top: nat) {
    match r
    case Code(size) => Grants(s, s', 1, SizeToPages(size), Some(size), top)
    case Data(size) => Grants(s, s', 1, SizeToPages(size), Some(size), top)
    case Declared(size, memoryType) => Grants(s, s', SizeToPages(size), memoryType, Some(size), top)
    case Free(k) =>
      s' == if k < |s.held| && s.held[k].bytes.Some?
            then State(Freed(s.owned, s.held[k].address, SizeToPages(s.held[k].bytes.value)), Without(s.held, k), 0)
            else s.(granted := 0)
    case Load(file) =>
      if s'.granted == 0 then s' == s.(granted := 0)
      else
        && file.info.Some? && Accepted(file.info.value) && Suitable(s.owned, s'.granted, 1, top)
        && var info := file.info.value;
           && s'.owned == MapAfter(s.owned, s'.granted, file, info)
           && s'.held == if Loaded(file, info, s'.granted)
                         then s.held + [Block(s'.granted, 1, SizeToPages(RequestedSize(info)), None)]
                         else s.held
  }

  /** What the request gets from the allocator; 0 also if it asks for nothing. */
  function Asked(memory: Memory, r: Request, s: State): nat {
    match r
    case Code(size) => memory.Offer(s.owned, SizeToPages(size), 1)
    case Data(size) => memory.Offer(s.owned, SizeToPages(size), 1)
    case Declared(size, memoryType) => memory.Offer(s.owned, memoryType, SizeToPages(size))
    case Free(_) => 0
    case Load(file) =>
      if file.info.Some? && Accepted(file.info.value)
      then memory.Offer(s.owned, SizeToPages(RequestedSize(file.info.value)), 1)
      else 0
  }

  method Serve(memory: Memory, r: Request, s: State) returns (s': State)
    requires s.owned == memory.owned
    modifies memory`owned
    ensures Serves(r, s, s', memory.top) && s'.granted == Asked(memory, r, s) && s'.owned == memory.owned
  {
    var granted, held := 0, s.held;
    match r {
      case Code(size) =>
        granted := memory.AllocateXnuSupportCode(size);
        held := if granted != 0 then held + [Block(granted, 1, SizeToPages(size), Some(size))] else held;
        OnePage(s.owned, granted / PAGE, SizeToPages(size));
      case Data(size) =>
        granted := memory.AllocateXnuSupportData(size);
        held := if granted != 0 then held + [Block(granted, 1, SizeToPages(size), Some(size))] else held;
        OnePage(s.owned, granted / PAGE, SizeToPages(size));
      case Declared(size, memoryType) =>
        granted := memory.InternalAllocateXnuSupportMemory(size, memoryType);
        held := if granted != 0 then held + [Block(granted, SizeToPages(size), memoryType, Some(size))] else held;
      case Free(k) =>
        if k < |held| && held[k].bytes.Some? {
          memory.FreeXnuSupportMemory(held[k].address, held[k].bytes.value);
          held := Without(held, k);
        }
      case Load(file) =>
        var entryPoint, base := LoadKernelEntryNotifyImage(memory, file);
        granted := base;
        if base != 0 && Loaded(file, file.info.value, base) {
          held := held + [Block(base, 1, SizeToPages(RequestedSize(file.info.value)), None)];
        }
    }
    s' := State(memory.owned, held, granted);
  }

  /** Every state of a run follows from the one before by the request served. */
  ghost predicate IsHistory(requests: seq<Request>, states: seq<State>, top: nat) {
    && |states| == |requests| + 1
    && forall i :: 0 <= i < |requests| ==> Serves(requests[i], states[i], states[i + 1], top)
  }

  /** Any run of allocations, frees and loads, every request served in turn, is such a history. */
  method Replay(memory: Memory, requests: seq<Request>) returns (states: seq<State>)
    modifies memory`owned
    ensures IsHistory(requests, states, memory.top)
    ensures forall i :: 0 <= i < |requests| ==> states[i + 1].granted == Asked(memory, requests[i], states[i])
    ensures states[0] == State(old(memory.owned), [], 0) && states[|requests|].owned == memory.owned
  {
    states := [State(memory.owned, [], 0)];
    for i := 0 to |requests|
      invariant IsHistory(requests[..i], states, memory.top)
      invariant forall j :: 0 <= j < i ==> states[j + 1].granted == Asked(memory, requests[j], states[j])
      invariant states[0] == State(old(memory.owned), [], 0) && states[i].owned == memory.owned
    {
      var s := Serve(memory, requests[i], states[i]);
      states := states + [s];
    }
    assert requests[..|requests|] == requests;
  }

  // ---- what holds over runs ----

  /** The pages are exactly those of others and of the blocks held, which were free when they were handed out. */
  ghost predicate Balanced(others: PageMap, s: State, top: nat) {
    Ledger(others, s.held, top) && s.owned == Pages(others, s.held)
  }

  /** A block that its holder's free gives back in full. */
  predicate GivesBack(b: Block) {
    b.bytes.Some? ==> SizeToPages(b.bytes.value) == b.pages
  }

  /** Such a block covers what was asked for, with no page too many. */
  lemma GivenBackIsCovered(b: Block)
    requires GivesBack(b) && b.bytes.Some?
    ensures b.pages * PAGE >= b.bytes.value
    ensures forall n :: n * PAGE >= b.bytes.value ==> n >= b.pages
  {
    forall n: int | n * PAGE >= b.bytes.value
      ensures n >= b.pages
    {
      SizeToPagesCovers(b.bytes.value, if n < 0 then 0 else n);
    }
    SizeToPagesCovers(b.bytes.value, b.pages);
  }

  /** The load succeeds, or gives back the very page it was granted. */
  predicate LoadBalances(file: ImageFile, info: ImageInfo, base: Word) {
    || Loaded(file, info, base)
    || (AlignValue(base, info.sectionAlignment) == base && 0 < RequestedSize(info) <= 0x1000 * PAGE)
  }

  lemma LoadBalancesExactlyWhen(owned: PageMap, file: ImageFile, info: ImageInfo, base: Word)
    requires base % PAGE == 0 && base / PAGE !in owned
    ensures LoadBalances(file, info, base) <==>
      MapAfter(owned, base, file, info) ==
        if Loaded(file, info, base) then owned[base / PAGE := SizeToPages(RequestedSize(info))] else owned
  {
    var pages := SizeToPages(RequestedSize(info));
    var aligned := AlignValue(base, info.sectionAlignment);
    FreeUndoesOnePageExactlyWhen(owned, base / PAGE, pages, aligned, SizeToPages(pages));
  }

  /** What keeps the balance: never an allocation's matter, only that of a free or of a load that was granted a page. */
  predicate Balances(r: Request, s: State, s': State) {
    match r
    case Free(k) => k < |s.held| ==> GivesBack(s.held[k])
    case Load(file) => s'.granted != 0 && file.info.Some? ==> LoadBalances(file, file.info.value, s'.granted)
    case _ => true
  }

  lemma GrantBalances(
    others: PageMap, s: State, s': State, pages: nat, memoryType: nat, bytes: Option<nat>, top: nat)
    requires Balanced(others, s, top) && Grants(s, s', pages, memoryType, bytes, top)
    ensures Balanced(others, s', top)
  {
    if s'.granted != 0 {
      Granted(others, s.held, Block(s'.granted, pages, memoryType, bytes), top);
    }
  }

  lemma FreeStep(others: PageMap, k: nat, s: State, s': State, top: nat)
    requires Balanced(others, s, top) && Serves(Free(k), s, s', top)
    ensures Balanced(others, s', top) <==> Balances(Free(k), s, s')
  {
    if k < |s.held| && s.held[k].bytes.Some? {
      FreeInFull(others, s.held, top, k);
      FreeBalancesExactlyWhen(others, s.held, top, k, SizeToPages(s.held[k].bytes.value));
    }
  }

  lemma LoadStep(others: PageMap, file: ImageFile, s: State, s': State, top: nat)
    requires Balanced(others, s, top) && Serves(Load(file), s, s', top)
    ensures Balanced(others, s', top) <==> Balances(Load(file), s, s')
  {
    if s'.granted != 0 {
      var info := file.info.value;
      var p, memoryType := s'.granted / PAGE, SizeToPages(RequestedSize(info));
      assert InRange(p, p, 1);
      LoadBalancesExactlyWhen(s.owned, file, info, s'.granted);
      Granted(others, s.held, Block(s'.granted, 1, memoryType, None), top);
      OnePage(s.owned, p, memoryType);
    }
  }

  /** From a balanced state a request leads to a balanced one exactly when the condition on it holds. */
  lemma StepBalancesExactlyWhen(others: PageMap, r: Request, s: State, s': State, top: nat)
    requires Balanced(others, s, top) && Serves(r, s, s', top)
    ensures Balanced(others, s', top) <==> Balances(r, s, s')
  {
    match r
    case Code(size) => GrantBalances(others, s, s', 1, SizeToPages(size), Some(size), top);
    case Data(size) => GrantBalances(others, s, s', 1, SizeToPages(size), Some(size), top);
    case Declared(size, memoryType) => GrantBalances(others, s, s', SizeToPages(size), memoryType, Some(size), top);
    case Free(k) => FreeStep(others, k, s, s', top);
    case Load(file) => LoadStep(others, file, s, s', top);
  }

  /** Up to the first n requests the pages stay balanced if each of them keeps the balance. */
  lemma {:induction false} StaysBalanced(
    others: PageMap, requests: seq<Request>, states: seq<State>, top: nat, n: nat)
    requires IsHistory(requests, states, top) && Balanced(others, states[0], top) && n < |states|
    requires forall i :: 0 <= i < n ==> Balances(requests[i], states[i], states[i + 1])
    ensures Balanced(others, states[n], top)
  {
    if n > 0 {
      StaysBalanced(others, requests, states, top, n - 1);
      StepBalancesExactlyWhen(others, requests[n - 1], states[n - 1], states[n], top);
    }
  }

  /**
   Page conservation.  Over a whole run the pages are at every moment exactly those there before and the disjoint
   blocks held, if and only if no free is of a block whose size asked for is not its own, and no failing load was
   granted a page that it must align or asked for more than 16 MB or for nothing.
   */
  lemma RunBalancesExactlyWhen(others: PageMap, requests: seq<Request>, states: seq<State>, top: nat)
    requires IsHistory(requests, states, top) && Balanced(others, states[0], top)
    ensures (forall n :: 0 <= n < |states| ==> Balanced(others, states[n], top)) <==>
      forall i :: 0 <= i < |requests| ==> Balances(requests[i], states[i], states[i + 1])
  {
    if forall i :: 0 <= i < |requests| ==> Balances(requests[i], states[i], states[i + 1]) {
      forall n | 0 <= n < |states|
        ensures Balanced(others, states[n], top)
      {
        StaysBalanced(others, requests, states, top, n);
      }
    } else {
      var i :| 0 <= i < |requests| && !Balances(requests[i], states[i], states[i + 1]);
      if Balanced(others, states[i], top) {
        StepBalancesExactlyWhen(others, requests[i], states[i], states[i + 1], top);
        assert !Balanced(others, states[i + 1], top);
      }
    }
  }

  // ---- requests that can never unbalance the pages ----

  /** Checked before the run, request by request. */
  predicate Modest(r: Request) {
    match r
    case Code(size) => 0 < size <= PAGE
    case Data(size) => 0 < size <= PAGE
    case Declared(_, _) => true
    case Free(_) => true
    case Load(file) => file.info.Some? ==>
      var info := file.info.value;
      IsPow2(info.sectionAlignment) && info.sectionAlignment <= PAGE && 0 < info.size <= 0x1000 * PAGE
  }

  lemma ModestLoadBalances(file: ImageFile, info: ImageInfo, base: Word)
    requires file.info == Some(info) && Modest(Load(file)) && base % PAGE == 0 && base + PAGE <= TWO_64
    ensures LoadBalances(file, info, base)
  {
    AlignedByPages(base, info.sectionAlignment);
    AlignValueIsCeiling(base, info.sectionAlignment);
  }

  lemma ModestServes(r: Request, s: State, s': State, top: nat)
    requires Serves(r, s, s', top) && Modest(r) && top < TWO_64
    requires forall b <- s.held :: GivesBack(b)
    ensures Balances(r, s, s') && forall b <- s'.held :: GivesBack(b)
  {
    if r.Load? && s'.granted != 0 {
      ModestLoadBalances(r.file, r.file.info.value, s'.granted);
    } else if r.Code? || r.Data? {
      SizeToPagesCovers(r.size, 1);
      SizeToPagesCovers(r.size, 0);
    }
  }

  /** Whatever is granted, a run of modest requests keeps the balance and every block covers what was asked for. */
  lemma {:induction false} ModestRunsBalance(
    others: PageMap, requests: seq<Request>, states: seq<State>, top: nat, n: nat)
    requires IsHistory(requests, states, top) && states[0] == State(others, [], 0) && n < |states| && top < TWO_64
    requires forall r <- requests :: Modest(r)
    ensures Balanced(others, states[n], top) && forall b <- states[n].held :: GivesBack(b)
  {
    if n > 0 {
      ModestRunsBalance(others, requests, states, top, n - 1);
      assert requests[n - 1] in requests;
      ModestServes(requests[n - 1], states[n - 1], states[n], top);
      StepBalancesExactlyWhen(others, requests[n - 1], states[n - 1], states[n], top);
    }
  }
}
