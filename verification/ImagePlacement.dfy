/** Loading the kernel-entry notification image: over-allocate, align, load, relocate, or roll back. */
module ImagePlacement {
  import opened Wrappers
  import opened Words
  import opened SupportMemory

  /** ALIGN_VALUE on 64-bit addresses. */
  function AlignValue(value: Word, alignment: Word): Word {
    Wrap(value + And(Wrap(alignment - value), Wrap(alignment - 1)))
  }

  /**
   The mask form is the arithmetic one: for a power of two it yields the least multiple of the alignment that is
   not below the value.
   */
  lemma {:induction false} AlignValueIsCeiling(value: Word, alignment: Word)
    requires IsPow2(alignment) && value + alignment <= TWO_64
    ensures var r := AlignValue(value, alignment);
      && r % alignment == 0 && value <= r < value + alignment
      && (r == value <==> value % alignment == 0)
  {
    AlignValueAddsGap(value, alignment);
    CeilingFacts(value, alignment, AlignValue(value, alignment));
  }

  lemma CeilingFacts(value: nat, alignment: nat, r: nat)
    requires alignment > 0 && r == value + Gap(value, alignment)
    ensures r % alignment == 0 && value <= r < value + alignment
    ensures r == value <==> value % alignment == 0
  {
    CeilingMod(value, alignment);
    GapIsZero(value, alignment);
  }

  lemma {:induction false} AlignValueAddsGap(value: Word, alignment: Word)
    requires IsPow2(alignment) && value + alignment <= TWO_64
    ensures AlignValue(value, alignment) == value + Gap(value, alignment)
  {
    MaskedGap(value, alignment);
    AlignValueAdds(value, alignment, Gap(value, alignment));
  }

  lemma {:induction false} AlignValueAdds(value: Word, alignment: Word, gap: nat)
    requires gap == And(Wrap(alignment - value), Wrap(alignment - 1)) && value + gap < TWO_64
    ensures AlignValue(value, alignment) == value + gap
  {
    WrapOnce(value + gap);
  }

  lemma GapIsZero(value: nat, alignment: nat)
    requires alignment > 0
    ensures Gap(value, alignment) == 0 <==> value % alignment == 0
  {
  }

  lemma WrapOnce(x: int)
    requires -TWO_64 < x < TWO_64
    ensures Wrap(x) == if x < 0 then x + TWO_64 else x
  {
  }

  /** Distance from value to the next multiple of alignment. */
  function Gap(value: nat, alignment: nat): (g: nat)
    requires alignment > 0
    ensures g < alignment
  {
    if value % alignment == 0 then 0 else alignment - value % alignment
  }

  lemma {:induction false} MaskedGap(value: Word, alignment: Word)
    requires IsPow2(alignment)
    ensures And(Wrap(alignment - value), Wrap(alignment - 1)) == Gap(value, alignment)
  {
    var k := Pow2Exponent(alignment);
    var x: nat := Wrap(alignment - value);
    AndLowMask(x, k);
    WrapOnce(alignment - value);
    WrapOnce(alignment - 1);
    if value > alignment {
      var turns := Turns(alignment, k);
      WrappedGap(x, value, alignment, turns);
    } else {
      WrappedGap(x, value, alignment, 0);
    }
  }

  lemma WrappedGap(x: nat, value: nat, alignment: nat, turns: nat)
    requires alignment > 0 && x == turns * alignment + alignment - value
    ensures x % alignment == Gap(value, alignment)
  {
    NegMod(value, alignment, turns);
  }

  lemma CeilingMod(value: nat, alignment: nat)
    requires alignment > 0
    ensures (value + Gap(value, alignment)) % alignment == 0
  {
    var q, m := value / alignment, value % alignment;
    if m != 0 {
      NextMultiple(q, alignment);
      DivModUnique(value + (alignment - m), alignment, q + 1, 0);
    }
  }

  lemma NextMultiple(q: int, a: int)
    ensures (q + 1) * a == q * a + a
  {
  }

  /** 2^64 is a multiple of every power of two that is a word. */
  lemma {:induction false} Turns(alignment: Word, k: nat) returns (turns: nat)
    requires alignment == Pow2(k)
    ensures turns * alignment == TWO_64
  {
    Pow2Values();
    if k > 64 {
      Pow2Grows(64, k);
    }
    turns := Pow2(64 - k);
    Pow2Add(64 - k, k);
  }

  lemma NegMod(value: nat, alignment: nat, turns: nat)
    requires alignment > 0
    ensures (turns * alignment + alignment - value) % alignment ==
      if value % alignment == 0 then 0 else alignment - value % alignment
  {
    var q, m := value / alignment, value % alignment;
    var x := turns * alignment + alignment - value;
    Distribute(turns, q, alignment);
    if m == 0 {
      DivModUnique(x, alignment, turns + 1 - q, 0);
    } else {
      DivModUnique(x, alignment, turns - q, alignment - m);
    }
  }

  lemma Distribute(turns: int, q: int, a: int)
    ensures (turns + 1 - q) * a == turns * a + a - q * a
    ensures (turns - q) * a == turns * a - q * a
  {
  }

  /** What PeCoffLoaderGetImageInfo reports; native and cross say whether the machine type is in each class. */
  datatype ImageInfo = ImageInfo(
    isTe: bool, relocationsStripped: bool, native: bool, cross: bool, size: Word, sectionAlignment: Word)

  /** An image file, as far as the PE/COFF library is concerned: each stage may fail. */
  datatype ImageFile = ImageFile(
    info: Option<ImageInfo>, loads: Word -> bool, relocates: Word -> bool, entryPoint: Word -> Word)

  /**
   The guard as written: a machine type passes unless it is in both classes.  The assertion in front of it wants one
   of the two, so they agree for a type in exactly one class; a foreign type in neither passes the guard.
   */
  predicate Accepted(info: ImageInfo) {
    !info.isTe && !info.relocationsStripped && (!info.native || !info.cross)
  }

  function RequestedSize(info: ImageInfo): Word {
    if info.sectionAlignment > PAGE then Wrap(info.size + info.sectionAlignment) else info.size
  }

  /**
   The page map after the loader got a page at base: kept when both stages succeed, otherwise what freeing the
   aligned address with a count of pages for a size leaves.
   */
  ghost function MapAfter(owned: PageMap, base: Word, file: ImageFile, info: ImageInfo): PageMap {
    var size := RequestedSize(info);
    var aligned := AlignValue(base, info.sectionAlignment);
    var grown := owned[base / PAGE := SizeToPages(size)];
    if file.loads(aligned) && file.relocates(aligned) then grown
    else Freed(grown, aligned, SizeToPages(SizeToPages(size)))
  }

  /** The page the loader obtained is reported in base; 0 if none. */
  method LoadKernelEntryNotifyImage(memory: Memory, file: ImageFile) returns (entryPoint: Word, base: Word)
    modifies memory`owned
    ensures file.info.None? ==> base == 0
    ensures file.info.Some? ==>
      var info := file.info.value;
      base ==
        if info.isTe || info.relocationsStripped || (info.native && info.cross) then 0
        else memory.Offer(old(memory.owned), SizeToPages(RequestedSize(info)), 1)
    ensures base ==
      if file.info.Some? && Accepted(file.info.value)
      then memory.Offer(old(memory.owned), SizeToPages(RequestedSize(file.info.value)), 1)
      else 0
    ensures base != 0 ==>
      && file.info.Some? && Accepted(file.info.value)
      && base % PAGE == 0 && base + PAGE <= memory.top && base / PAGE !in old(memory.owned)
      && memory.owned == MapAfter(old(memory.owned), base, file, file.info.value)
      && var aligned := AlignValue(base, file.info.value.sectionAlignment);
         entryPoint == if file.loads(aligned) && file.relocates(aligned) then file.entryPoint(aligned) else 0
    ensures base == 0 ==> entryPoint == 0 && memory.owned == old(memory.owned)
  {
    entryPoint := 0;
    base := 0;
    if file.info.Some? && Accepted(file.info.value) {
      var info := file.info.value;
      var size := info.size;
      if info.sectionAlignment > PAGE {
        size := Wrap(size + info.sectionAlignment);
      }
      var address := memory.AllocateXnuSupportCode(size);
      if address != 0 {
        base := address;
        var imageAddress := AlignValue(base, info.sectionAlignment);
        var error := !file.loads(imageAddress);
        if !error {
          error := !file.relocates(imageAddress);
          if !error {
            entryPoint := file.entryPoint(imageAddress);
          }
        }
        if error {
          memory.FreeXnuSupportMemory(imageAddress, SizeToPages(size));
        }
      }
    }
  }

  // ---- where the image ends up ----

  /** Alignments up to a page keep a page-aligned base; larger ones move it by whole pages. */
  lemma {:induction false} AlignedByPages(base: Word, alignment: Word)
    requires base % PAGE == 0 && IsPow2(alignment) && base + alignment <= TWO_64
    ensures AlignValue(base, alignment) % PAGE == 0
    ensures alignment <= PAGE ==> base % alignment == 0
  {
    AlignValueIsCeiling(base, alignment);
    Pow2Values();
    var k := Pow2Exponent(alignment);
    if k <= 12 {
      Pow2Add(12 - k, k);
      MultipleOfDivisor(base, PAGE, alignment, Pow2(12 - k));
    } else {
      Pow2Grows(12, k);
      Pow2Add(k - 12, 12);
      MultipleOfDivisor(AlignValue(base, alignment), alignment, PAGE, Pow2(k - 12));
    }
  }

  lemma MultipleOfDivisor(x: nat, m: nat, d: nat, c: nat)
    requires d > 0 && m > 0 && x % m == 0 && m == c * d
    ensures x % d == 0
  {
    var q := x / m;
    assert x == q * m;
    assert q * (c * d) == (q * c) * d;
    DivModUnique(x, d, q * c, 0);
  }

  /** As intended: the aligned image lies in the requested bytes at a page-aligned base, so also in their pages. */
  lemma {:induction false} RequestedSizeSuffices(base: Word, info: ImageInfo)
    requires base % PAGE == 0 && IsPow2(info.sectionAlignment)
    requires base + info.sectionAlignment <= TWO_64 && info.size + info.sectionAlignment < TWO_64
    ensures RequestedSize(info) == info.size + (if info.sectionAlignment > 0x1000 then info.sectionAlignment else 0)
    ensures base <= AlignValue(base, info.sectionAlignment)
    ensures AlignValue(base, info.sectionAlignment) + info.size <= base + RequestedSize(info)
    ensures AlignValue(base, info.sectionAlignment) + info.size <= base + SizeToPages(RequestedSize(info)) * PAGE
  {
    AlignValueIsCeiling(base, info.sectionAlignment);
    AlignedByPages(base, info.sectionAlignment);
    WrapOnce(info.size + info.sectionAlignment);
    Covered(base, AlignValue(base, info.sectionAlignment), info.size, RequestedSize(info));
  }

  lemma Covered(base: nat, aligned: nat, size: nat, requested: nat)
    requires aligned + size <= base + requested
    ensures aligned + size <= base + SizeToPages(requested) * PAGE
  {
    SizeToPagesCovers(requested, SizeToPages(requested));
  }

  /**
   As written, with one page: the image lies inside it exactly when it is that small and the page happens to be
   aligned.
   */
  lemma {:induction false} ImageFitsItsPageExactlyWhen(base: Word, info: ImageInfo)
    requires base % PAGE == 0 && IsPow2(info.sectionAlignment) && base + info.sectionAlignment <= TWO_64
    requires info.size > 0
    ensures AlignValue(base, info.sectionAlignment) + info.size <= base + PAGE <==>
      base % info.sectionAlignment == 0 && info.size <= PAGE
  {
    AlignValueIsCeiling(base, info.sectionAlignment);
    AlignedByPages(base, info.sectionAlignment);
    FitsPage(base, AlignValue(base, info.sectionAlignment), info.size);
  }

  lemma FitsPage(base: nat, aligned: nat, size: nat)
    requires base % PAGE == 0 && aligned % PAGE == 0 && base <= aligned && size > 0
    ensures aligned + size <= base + PAGE <==> aligned == base && size <= PAGE
  {
  }

  /**
   A failed load leaves the page map as it was exactly when the page was already aligned and the request at most
   16 MB.
   */
  lemma {:induction false} FailedLoadRestoresExactlyWhen(owned: PageMap, base: Word, file: ImageFile, info: ImageInfo)
    requires base % PAGE == 0 && base / PAGE !in owned
    requires IsPow2(info.sectionAlignment) && base + info.sectionAlignment <= TWO_64
    requires var a := AlignValue(base, info.sectionAlignment); !file.loads(a) || !file.relocates(a)
    ensures MapAfter(owned, base, file, info) == owned <==>
      base % info.sectionAlignment == 0 && 0 < RequestedSize(info) <= 0x1000 * PAGE
  {
    AlignValueIsCeiling(base, info.sectionAlignment);
    var pages := SizeToPages(RequestedSize(info));
    var aligned := AlignValue(base, info.sectionAlignment);
    FreeUndoesOnePageExactlyWhen(owned, base / PAGE, pages, aligned, SizeToPages(pages));
  }

  /** A one-byte image of two-page alignment that fails to load, given the page at 0x1000, loses that page. */
  lemma {:induction false} UnalignedPageIsLost(file: ImageFile, info: ImageInfo)
    requires info.size == 1 && info.sectionAlignment == 0x2000 && forall a :: !file.loads(a)
    ensures MapAfter(map[], 0x1000, file, info) != map[]
  {
    assert IsPow2(0x10) && IsPow2(0x100) && IsPow2(0x1000) && IsPow2(0x2000);
    FailedLoadRestoresExactlyWhen(map[], 0x1000, file, info);
  }
}
