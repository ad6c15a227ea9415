/**
 The allocator of memory that survives into the kernel, as written: its two public functions hand (memory type,
 page count) to parameters declared (size, memory type).
 */
module SupportMemory {
  import opened Words

  const PAGE: nat := 0x1000
  const EFI_BOOT_SERVICES_CODE: nat := 3
  const EFI_BOOT_SERVICES_DATA: nat := 4

  /** EFI_SIZE_TO_PAGES. */
  function SizeToPages(size: nat): nat {
    size / PAGE + if size % PAGE != 0 then 1 else 0
  }

  /** Memory type by page number, for every allocated page. */
  type PageMap = map<nat, nat>

  predicate AllFree(owned: PageMap, first: nat, count: nat) {
    forall p :: first <= p < first + count ==> p !in owned
  }

  predicate AllOwned(owned: PageMap, first: nat, count: nat) {
    forall p :: first <= p < first + count ==> p in owned
  }

  predicate InRange(p: nat, first: nat, count: nat) {
    first <= p < first + count
  }

  function Allocated(owned: PageMap, first: nat, count: nat, memoryType: nat): PageMap {
    owned + map p: nat | first <= p < first + count && InRange(p, first, count) :: memoryType
  }

  /** FreePages changes nothing unless every page named is allocated. */
  function Freed(owned: PageMap, address: nat, count: nat): PageMap {
    if address % PAGE == 0 && count > 0 && AllOwned(owned, address / PAGE, count)
    then owned - set p: nat | address / PAGE <= p < address / PAGE + count && InRange(p, address / PAGE, count)
    else owned
  }

  /** Where AllocatePagesFromTop may place a block. */
  predicate Suitable(owned: PageMap, address: nat, count: nat, top: nat) {
    && address > 0 && address % PAGE == 0 && count > 0
    && address + count * PAGE <= top
    && AllFree(owned, address / PAGE, count)
  }

  /** Every page that size bytes at address take up is newly allocated. */
  ghost predicate Covers(before: PageMap, after: PageMap, address: nat, size: nat) {
    forall p :: InRange(p, address / PAGE, SizeToPages(size)) ==> p in after && p !in before
  }

  /** And of the memory type that is meant. */
  ghost predicate Meets(before: PageMap, after: PageMap, address: nat, size: nat, memoryType: nat) {
    && Covers(before, after, address, size)
    && forall p :: InRange(p, address / PAGE, SizeToPages(size)) ==> after[p] == memoryType
  }

  ghost predicate Copied(before: nat -> Byte, after: nat -> Byte, destination: nat, source: seq<Byte>) {
    forall a: nat ::
      after(a) == (if destination <= a < destination + |source| then source[a - destination] else before(a))
  }

  /** Physical memory: which pages are allocated, and its bytes. */
  class Memory {
    var owned: PageMap
    var bytes: nat -> Byte
    /** XNU_MAX_PHYSICAL_ADDRESS, which the repository takes from another package. */
    const top: Word
    /** Any policy for choosing a block; an unsuitable answer is a failed allocation. */
    const place: (PageMap, nat, nat) -> nat

    /** What the policy places below the top address, 0 standing for NULL. */
    function Offer(owned: PageMap, memoryType: nat, pages: nat): nat {
      var address := place(owned, memoryType, pages);
      if Suitable(owned, address, pages, top) then address else 0
    }

    method AllocatePagesFromTop(memoryType: nat, pages: nat, limit: nat) returns (address: nat)
      modifies this`owned
      ensures limit == top ==> address == Offer(old(owned), memoryType, pages)
      ensures address == 0 ==> owned == old(owned)
      ensures address != 0 ==>
        && Suitable(old(owned), address, pages, limit)
        && owned == Allocated(old(owned), address / PAGE, pages, memoryType)
    {
      address := place(owned, memoryType, pages);
      if Suitable(owned, address, pages, limit) {
        owned := Allocated(owned, address / PAGE, pages, memoryType);
      } else {
        address := 0;
      }
    }

    method FreePages(address: nat, pages: nat)
      modifies this`owned
      ensures owned == Freed(old(owned), address, pages)
    {
      owned := Freed(owned, address, pages);
    }

    method InternalAllocateXnuSupportMemory(size: nat, memoryType: nat) returns (address: nat)
      modifies this`owned
      ensures address == Offer(old(owned), memoryType, SizeToPages(size))
      ensures address == 0 ==> owned == old(owned)
      ensures address != 0 ==>
        && Suitable(old(owned), address, SizeToPages(size), top)
        && owned == Allocated(old(owned), address / PAGE, SizeToPages(size), memoryType)
    {
      address := AllocatePagesFromTop(memoryType, SizeToPages(size), top);
    }

    /** One page, of a memory type that is the page count asked for. */
    method AllocateXnuSupportCode(size: nat) returns (address: nat)
      modifies this`owned
      ensures address == Offer(old(owned), SizeToPages(size), 1)
      ensures address == 0 ==> owned == old(owned)
      ensures address != 0 ==>
        && address % PAGE == 0 && address + PAGE <= top && address / PAGE !in old(owned)
        && owned == old(owned)[address / PAGE := SizeToPages(size)]
        && (Covers(old(owned), owned, address, size) <==> size <= PAGE)
        && (Meets(old(owned), owned, address, size, EFI_BOOT_SERVICES_CODE) <==> size == 0)
    {
      ghost var before := owned;
      address := InternalAllocateXnuSupportMemory(EFI_BOOT_SERVICES_CODE, SizeToPages(size));
      if address != 0 {
        OnePage(before, address / PAGE, SizeToPages(size));
        AllocationNeverAsAsked(before, address, size, EFI_BOOT_SERVICES_CODE);
      }
    }

    method AllocateXnuSupportData(size: nat) returns (address: nat)
      modifies this`owned
      ensures address == Offer(old(owned), SizeToPages(size), 1)
      ensures address == 0 ==> owned == old(owned)
      ensures address != 0 ==>
        && address % PAGE == 0 && address + PAGE <= top && address / PAGE !in old(owned)
        && owned == old(owned)[address / PAGE := SizeToPages(size)]
        && (Covers(old(owned), owned, address, size) <==> size <= PAGE)
        && (Meets(old(owned), owned, address, size, EFI_BOOT_SERVICES_DATA) <==> size == 0)
    {
      ghost var before := owned;
      address := InternalAllocateXnuSupportMemory(EFI_BOOT_SERVICES_DATA, SizeToPages(size));
      if address != 0 {
        OnePage(before, address / PAGE, SizeToPages(size));
        AllocationNeverAsAsked(before, address, size, EFI_BOOT_SERVICES_DATA);
      }
    }

    /** CopyMem: no page is checked, whatever the bytes land on. */
    method CopyMem(destination: nat, source: seq<Byte>)
      modifies this`bytes
      ensures Copied(old(bytes), bytes, destination, source)
    {
      var before := bytes;
      bytes := (a: nat) =>
        if destination <= a < destination + |source| then source[a - destination] else before(a);
    }

    method FreeXnuSupportMemory(buffer: nat, size: nat)
      modifies this`owned
      ensures owned == Freed(old(owned), buffer, SizeToPages(size))
    {
      FreePages(buffer, SizeToPages(size));
    }
  }

  /** Any free, page-aligned block that the policy answers and that ends at or below the top is granted. */
  lemma SuitableAnswerIsGranted(memory: Memory, owned: PageMap, memoryType: nat, pages: nat)
    requires var address := memory.place(owned, memoryType, pages);
      && address > 0 && address % 0x1000 == 0 && pages > 0 && address + pages * 0x1000 <= memory.top
      && forall p :: address <= p * 0x1000 < address + pages * 0x1000 ==> p !in owned
    ensures memory.Offer(owned, memoryType, pages) == memory.place(owned, memoryType, pages)
  {
  }

  lemma OnePage(owned: PageMap, p: nat, memoryType: nat)
    ensures Allocated(owned, p, 1, memoryType) == owned[p := memoryType]
  {
  }

  /** The least number of pages that covers size bytes. */
  lemma SizeToPagesCovers(size: nat, pages: nat)
    ensures pages * PAGE >= size <==> pages >= SizeToPages(size)
  {
  }

  /**
   The block a public function grants is one page, of a type that is the page count: it covers the request iff that
   is at most a page, and is covered in the type meant only when nothing was asked for.
   */
  lemma AllocationNeverAsAsked(before: PageMap, address: nat, size: nat, memoryType: nat)
    requires address / PAGE !in before
    requires memoryType == EFI_BOOT_SERVICES_CODE || memoryType == EFI_BOOT_SERVICES_DATA
    ensures var after := before[address / PAGE := SizeToPages(size)];
      && (Covers(before, after, address, size) <==> size <= PAGE)
      && (Meets(before, after, address, size, memoryType) <==> size == 0)
  {
    var first := address / PAGE;
    SizeToPagesCovers(size, 1);
    SizeToPagesCovers(size, 0);
    assert InRange(first, first, SizeToPages(size)) <==> size > 0;
    assert InRange(first + 1, first, SizeToPages(size)) <==> size > PAGE;
  }

  /** Freeing gives back exactly an allocated page when told its address and one page. */
  lemma FreeUndoesOnePageExactlyWhen(owned: PageMap, p: nat, memoryType: nat, address: nat, count: nat)
    requires p !in owned
    ensures Freed(owned[p := memoryType], address, count) == owned <==> address == p * PAGE && count == 1
  {
    var after := owned[p := memoryType];
    var freed := Freed(after, address, count);
    if address == p * PAGE && count == 1 {
      assert address / PAGE == p;
      assert freed == owned;
    } else if address % PAGE == 0 && count > 0 && AllOwned(after, address / PAGE, count) {
      var q := if address / PAGE == p then p + 1 else address / PAGE;
      assert InRange(q, address / PAGE, count) && q in after;
      assert q in owned && q !in freed;
    } else {
      assert p in freed;
    }
  }

  /** A caller that frees with the size it asked for restores the page map exactly when that is at most a page. */
  lemma FreeUndoesAllocationExactlyWhen(owned: PageMap, p: nat, size: nat)
    requires p !in owned && size > 0
    ensures Freed(owned[p := SizeToPages(size)], p * PAGE, SizeToPages(size)) == owned <==> size <= PAGE
  {
    FreeUndoesOnePageExactlyWhen(owned, p, SizeToPages(size), p * PAGE, SizeToPages(size));
    SizeToPagesCovers(size, 1);
    SizeToPagesCovers(size, 0);
  }
}
