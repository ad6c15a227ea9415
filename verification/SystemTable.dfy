/**
 The preserved copy of the EFI system table: made once in support memory, shown to the booter through its
 loaded-image protocol, and freed when the booter exits or when showing it failed.
 */
module SystemTable {
  import opened Wrappers
  import opened Words
  import opened SupportMemory

  const HEADER_BYTES: nat := 24

  /** Hdr.HeaderSize: four little-endian bytes at offset 12 of a table (section 4.2 of the UEFI Specification). */
  function SizeField(b: nat -> Byte, address: nat): nat {
    b(address + 12) + 0x100 * b(address + 13) + 0x1_0000 * b(address + 14) + 0x100_0000 * b(address + 15)
  }

  function HeaderSize(table: seq<Byte>): nat
    requires |table| >= HEADER_BYTES
  {
    (table[12] as int) + 0x100 * (table[13] as int) + 0x1_0000 * (table[14] as int) + 0x100_0000 * (table[15] as int)
  }

  /** A system table: its header is complete and its size within the bytes that are there. */
  predicate IsTable(table: seq<Byte>) {
    |table| >= HEADER_BYTES && HEADER_BYTES <= HeaderSize(table) <= |table|
  }

  type Table = t: seq<Byte> | IsTable(t)
    witness seq(24, i => if i == 12 then 24 else 0)

  /**
   The state between two operations: mSTCopy, LoadedImage->SystemTable by image where one was written, the page map,
   the bytes, and what the allocator gave the operation that led here, if it asked.
   */
  datatype State = State(copy: nat, shown: map<nat, nat>, owned: PageMap, bytes: nat -> Byte, got: nat)

  /** mSTCopy is NULL or the address of an allocatable page where the table's first HeaderSize bytes are. */
  ghost predicate CopyOk(table: Table, top: nat, s: State) {
    s.copy != 0 ==>
      && s.copy % PAGE == 0 && s.copy + PAGE <= top
      && forall i {:trigger table[i]} :: 0 <= i < HeaderSize(table) ==> s.bytes(s.copy + i) == table[i]
  }

  /** booter and image are what the two protocol look-ups of an override find, None on failure. */
  datatype Operation = Override(booter: Option<nat>, image: Option<nat>) | Free

  /** What each operation does: the whole new state. */
  ghost predicate Does(table: Table, top: nat, op: Operation, s: State, s': State) {
    var pages := SizeToPages(HeaderSize(table));
    match op
    case Free =>
      s' == s.(copy := 0, got := 0, owned := if s.copy == 0 then s.owned else Freed(s.owned, s.copy, pages))
    case Override(booter, image) =>
      if s.copy != 0 || s'.got == 0 then s' == s.(got := 0)
      else
        && Suitable(s.owned, s'.got, 1, top)
        && Copied(s.bytes, s'.bytes, s'.got, table[..HeaderSize(table)])
        && var grown := s.owned[s'.got / PAGE := pages];
           if booter.Some? && image.Some?
           then s'.copy == s'.got && s'.shown == s.shown[image.value := s'.got] && s'.owned == grown
           else s'.copy == 0 && s'.shown == s.shown && s'.owned == Freed(grown, s'.got, pages)
  }

  /** What an override gets from the allocator: it asks only when there is no copy. */
  function Asked(memory: Memory, table: Table, s: State): nat {
    if s.copy == 0 then memory.Offer(s.owned, SizeToPages(HeaderSize(table)), 1) else 0
  }

  class FirmwareFixes {
    const memory: Memory
    const gST: Table
    var mSTCopy: nat
    var systemTable: map<nat, nat>

    ghost function Now(got: nat): State
      reads this, memory
    {
      State(mSTCopy, systemTable, memory.owned, memory.bytes, got)
    }

    ghost predicate Valid()
      reads this, memory
    {
      CopyOk(gST, memory.top, Now(0))
    }

    /** InternalFreeSystemTableCopy; the size to free is read from the copy. */
    method FreeSystemTableCopy()
      requires Valid()
      modifies this`mSTCopy, memory`owned
      ensures Valid() && Does(gST, memory.top, Free, old(Now(0)), Now(0))
    {
      if mSTCopy != 0 {
        SizeSurvives(gST, memory.top, Now(0));
        memory.FreeXnuSupportMemory(mSTCopy, SizeField(memory.bytes, mSTCopy));
        mSTCopy := 0;
      }
    }

    /** InternalOverrideSystemTable. */
    method OverrideSystemTable(booter: Option<nat>, image: Option<nat>) returns (ghost got: nat)
      requires Valid()
      modifies this, memory
      ensures Valid() && Does(gST, memory.top, Override(booter, image), old(Now(0)), Now(got))
      ensures got == Asked(memory, gST, old(Now(0)))
    {
      got := 0;
      if mSTCopy == 0 {
        mSTCopy := memory.AllocateXnuSupportData(HeaderSize(gST));
        if mSTCopy != 0 {
          got := mSTCopy;
          memory.CopyMem(mSTCopy, gST[..HeaderSize(gST)]);
          var error := booter.None?;
          if !error {
            error := image.None?;
            if !error {
              systemTable := systemTable[image.value := mSTCopy];
            }
          }
          if error {
            FreeSystemTableCopy();
          }
        }
      }
    }

    constructor (memory: Memory, gST: Table)
      ensures this.memory == memory && this.gST == gST && mSTCopy == 0 && systemTable == map[] && Valid()
    {
      this.memory := memory;
      this.gST := gST;
      mSTCopy := 0;
      systemTable := map[];
    }
  }

  lemma SizeSurvives(table: Table, top: nat, s: State)
    requires CopyOk(table, top, s) && s.copy != 0
    ensures SizeField(s.bytes, s.copy) == HeaderSize(table)
  {
    assert s.bytes(s.copy + 12) == table[12] && s.bytes(s.copy + 13) == table[13];
    assert s.bytes(s.copy + 14) == table[14] && s.bytes(s.copy + 15) == table[15];
  }

  ghost predicate IsHistory(table: Table, top: nat, ops: seq<Operation>, states: seq<State>) {
    && |states| == |ops| + 1
    && CopyOk(table, top, states[0])
    && forall i :: 0 <= i < |ops| ==> Does(table, top, ops[i], states[i], states[i + 1])
  }

  /** Any run of overrides, with any failing look-ups and allocations, and frees is such a history. */
  method Replay(fixes: FirmwareFixes, ops: seq<Operation>) returns (ghost states: seq<State>)
    requires fixes.Valid()
    modifies fixes, fixes.memory
    ensures fixes.Valid() && IsHistory(fixes.gST, fixes.memory.top, ops, states)
    ensures forall i :: 0 <= i < |ops| && ops[i].Override? ==>
      states[i + 1].got == Asked(fixes.memory, fixes.gST, states[i])
    ensures states[0] == old(fixes.Now(0)) && states[|ops|] == fixes.Now(states[|ops|].got)
  {
    states := [fixes.Now(0)];
    for i := 0 to |ops|
      invariant fixes.Valid() && IsHistory(fixes.gST, fixes.memory.top, ops[..i], states)
      invariant forall j :: 0 <= j < i && ops[j].Override? ==>
        states[j + 1].got == Asked(fixes.memory, fixes.gST, states[j])
      invariant states[0] == old(fixes.Now(0)) && states[i] == fixes.Now(states[i].got)
    {
      ghost var got := 0;
      match ops[i] {
        case Override(booter, image) => got := fixes.OverrideSystemTable(booter, image);
        case Free => fixes.FreeSystemTableCopy();
      }
      assert Does(fixes.gST, fixes.memory.top, ops[i], states[i], fixes.Now(got));
      states := states + [fixes.Now(got)];
    }
    assert ops[..|ops|] == ops;
  }

  // ---- what holds over runs ----

  /** Whenever mSTCopy is non-NULL it points to a copy equal to the table. */
  lemma {:induction false} CopyIsTable(table: Table, top: nat, ops: seq<Operation>, states: seq<State>, n: nat)
    requires IsHistory(table, top, ops, states) && n < |states|
    ensures CopyOk(table, top, states[n])
  {
    if n > 0 {
      CopyIsTable(table, top, ops, states, n - 1);
      DoesKeepsCopyOk(table, top, ops[n - 1], states[n - 1], states[n]);
    }
  }

  lemma DoesKeepsCopyOk(table: Table, top: nat, op: Operation, s: State, s': State)
    requires CopyOk(table, top, s) && Does(table, top, op, s, s')
    ensures CopyOk(table, top, s')
  {
  }

  /** A copy once made is neither made again nor touched, nor shown to another image, until it is freed. */
  lemma {:induction false} CopyStaysUntilFreed(
    table: Table, top: nat, ops: seq<Operation>, states: seq<State>, i: nat, j: nat)
    requires IsHistory(table, top, ops, states) && i <= j < |states| && states[i].copy != 0
    requires forall k :: i <= k < j ==> ops[k].Override?
    ensures states[j] == states[i].(got := states[j].got) && (i < j ==> states[j].got == 0)
    decreases j
  {
    if i < j {
      CopyStaysUntilFreed(table, top, ops, states, i, j - 1);
      assert Does(table, top, ops[j - 1], states[j - 1], states[j]);
    }
  }

  /** What an override comes to: the copy it made is shown to the image, or is gone again and no handle changes. */
  lemma OverrideShowsItsCopy(table: Table, top: nat, ops: seq<Operation>, states: seq<State>, i: nat, image: nat)
    requires IsHistory(table, top, ops, states) && i < |ops| && ops[i].Override? && states[i].copy == 0
    ensures ops[i].booter.Some? && ops[i].image == Some(image) && states[i + 1].got != 0 ==>
      && states[i + 1].copy == states[i + 1].got
      && states[i + 1].shown == states[i].shown[image := states[i + 1].copy]
    ensures ops[i].booter.None? || ops[i].image.None? || states[i + 1].got == 0 ==>
      states[i + 1].copy == 0 && states[i + 1].shown == states[i].shown
  {
    assert Does(table, top, ops[i], states[i], states[i + 1]);
  }

  /** A free leaves no copy, and the handles as they are. */
  lemma FreeLeavesNoCopy(table: Table, top: nat, ops: seq<Operation>, states: seq<State>, i: nat)
    requires IsHistory(table, top, ops, states) && i < |ops| && ops[i].Free?
    ensures states[i + 1].copy == 0 && states[i + 1].shown == states[i].shown && states[i + 1].bytes == states[i].bytes
  {
    assert Does(table, top, ops[i], states[i], states[i + 1]);
  }

  /** The size field of a table is the little-endian number after its signature and revision. */
  lemma HeaderSizeIsLittleEndian(front: seq<Byte>, a: Byte, b: Byte, c: Byte, d: Byte, rest: seq<Byte>)
    requires |front| == 12 && |rest| >= 8
    ensures HeaderSize(front + [a, b, c, d] + rest) == a + 256 * (b + 256 * (c + 256 * (d as int)))
  {
  }

  /** An image is only ever shown the copy, by an override whose look-ups both succeed. */
  lemma {:induction false} ShownByOverride(
    table: Table, top: nat, ops: seq<Operation>, states: seq<State>, n: nat, image: nat) returns (i: nat)
    requires IsHistory(table, top, ops, states) && n < |states|
    requires image in states[n].shown && (image in states[0].shown ==> states[0].shown[image] != states[n].shown[image])
    ensures i < n && ops[i].Override? && ops[i].booter.Some? && ops[i].image == Some(image)
    ensures states[i].copy == 0 && states[i + 1].copy == states[n].shown[image] != 0
  {
    i := n - 1;
    assert Does(table, top, ops[i], states[i], states[n]);
    if image in states[i].shown && states[i].shown[image] == states[n].shown[image] {
      i := ShownByOverride(table, top, ops, states, i, image);
    }
  }

  /** The pages are those of others and, exactly when mSTCopy is non-NULL, the one of the copy. */
  ghost predicate Balanced(table: Table, others: PageMap, s: State) {
    if s.copy == 0 then s.owned == others
    else s.copy / PAGE !in others && s.owned == others[s.copy / PAGE := SizeToPages(HeaderSize(table))]
  }

  /** The operation gives up a copy: the one there was, or the one it made and could not show. */
  predicate GivesUp(op: Operation, s: State, s': State) {
    match op
    case Free => s.copy != 0
    case Override(booter, image) => s.copy == 0 && s'.got != 0 && (booter.None? || image.None?)
  }

  lemma StepBalancesExactlyWhen(table: Table, top: nat, others: PageMap, op: Operation, s: State, s': State)
    requires CopyOk(table, top, s) && Balanced(table, others, s) && Does(table, top, op, s, s')
    ensures Balanced(table, others, s') <==> HeaderSize(table) <= PAGE || !GivesUp(op, s, s')
  {
    if op.Free? && s.copy != 0 {
      FreeUndoesAllocationExactlyWhen(others, s.copy / PAGE, HeaderSize(table));
    } else if op.Override? && s.copy == 0 && s'.got != 0 {
      FreeUndoesAllocationExactlyWhen(others, s'.got / PAGE, HeaderSize(table));
    }
  }

  /**
   Over a whole run there is never more than the one page of the copy beyond the pages there before, live exactly
   when mSTCopy is non-NULL, if and only if the table is at most a page or no copy is ever given up.
   */
  lemma RunBalancesExactlyWhen(table: Table, top: nat, others: PageMap, ops: seq<Operation>, states: seq<State>)
    requires IsHistory(table, top, ops, states) && Balanced(table, others, states[0])
    ensures (forall n :: 0 <= n < |states| ==> Balanced(table, others, states[n])) <==>
      HeaderSize(table) <= PAGE || forall i :: 0 <= i < |ops| ==> !GivesUp(ops[i], states[i], states[i + 1])
  {
    var kept := forall i :: 0 <= i < |ops| ==> !GivesUp(ops[i], states[i], states[i + 1]);
    if HeaderSize(table) <= PAGE || kept {
      forall n | 0 <= n < |states|
        ensures Balanced(table, others, states[n])
      {
        StaysBalanced(table, top, others, ops, states, n);
      }
    } else {
      var i :| 0 <= i < |ops| && GivesUp(ops[i], states[i], states[i + 1]);
      if Balanced(table, others, states[i]) {
        CopyIsTable(table, top, ops, states, i);
        StepBalancesExactlyWhen(table, top, others, ops[i], states[i], states[i + 1]);
        assert !Balanced(table, others, states[i + 1]);
      }
    }
  }

  lemma {:induction false} StaysBalanced(
    table: Table, top: nat, others: PageMap, ops: seq<Operation>, states: seq<State>, n: nat)
    requires IsHistory(table, top, ops, states) && Balanced(table, others, states[0]) && n < |states|
    requires HeaderSize(table) <= PAGE || forall i :: 0 <= i < |ops| ==> !GivesUp(ops[i], states[i], states[i + 1])
    ensures Balanced(table, others, states[n])
  {
    if n > 0 {
      StaysBalanced(table, top, others, ops, states, n - 1);
      CopyIsTable(table, top, ops, states, n - 1);
      StepBalancesExactlyWhen(table, top, others, ops[n - 1], states[n - 1], states[n]);
    }
  }

  /** Making a copy changes no byte outside its page iff the table is at most a page or what follows is equal anyway. */
  lemma CopyStaysInItsPageExactlyWhen(table: Table, top: nat, op: Operation, s: State, s': State)
    requires Does(table, top, op, s, s') && op.Override? && s.copy == 0 && s'.got != 0
    ensures (forall a: nat :: a / PAGE != s'.got / PAGE ==> s'.bytes(a) == s.bytes(a)) <==>
      || HeaderSize(table) <= PAGE
      || forall i {:trigger table[i]} :: PAGE <= i < HeaderSize(table) ==> s.bytes(s'.got + i) == table[i]
  {
    var size := HeaderSize(table);
    if i :| PAGE <= i < size && s.bytes(s'.got + i) != table[i] {
      assert s'.bytes(s'.got + i) == table[i];
      assert (s'.got + i) / PAGE != s'.got / PAGE;
    } else {
      forall a: nat | a / PAGE != s'.got / PAGE
        ensures s'.bytes(a) == s.bytes(a)
      {
        if s'.got <= a < s'.got + size {
          assert s'.bytes(a) == table[a - s'.got];
        }
      }
    }
  }

  /** Over a run with a table of at most a page, every byte outside the pages granted is as it was at the start. */
  lemma {:induction false} OtherBytesStay(
    table: Table, top: nat, ops: seq<Operation>, states: seq<State>, n: nat, a: nat)
    requires IsHistory(table, top, ops, states) && n < |states| && HeaderSize(table) <= PAGE
    requires forall i :: 0 < i <= n && states[i].got != 0 ==> a / PAGE != states[i].got / PAGE
    ensures states[n].bytes(a) == states[0].bytes(a)
  {
    if n > 0 {
      OtherBytesStay(table, top, ops, states, n - 1, a);
      var op, s, s' := ops[n - 1], states[n - 1], states[n];
      assert Does(table, top, op, s, s');
      if op.Override? && s.copy == 0 && s'.got != 0 {
        CopyStaysInItsPageExactlyWhen(table, top, op, s, s');
      }
    }
  }
}
