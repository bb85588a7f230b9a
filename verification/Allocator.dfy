/** The physical machine: memory, per-page reference counts, and the page allocator of kernel.cc.

Pages are named by page number, so the null pointer is page 0 and `next_alloc_pa` is kept
as `nextAlloc`, its page number. Reference counts are 8-bit.
 */
module Allocator {
  import opened Paging

  const REFCOUNT_END: nat := 256

  /** `reserved_physical_address`: page 0 and the I/O hole from 0xA0000 to 0x100000. */
  predicate Reserved(f: nat) {
    f < 1 || 0xA0 <= f < 0x100
  }

  class Machine {
    /** The number of physical pages (NPAGES), and the first page after the kernel image. */
    const npages: nat
    const kernelEnd: nat

    var mem: Mem
    var refs: seq<nat>
    var nextAlloc: nat

    /** `allocatable_physical_address`: not reserved, not kernel image, not kernel stack, and in memory. */
    predicate Allocatable(f: nat) {
      && !Reserved(f)
      && (f < 0x40 || f >= kernelEnd)
      && (f < 0x7F || f >= 0x80)
      && f < npages
    }

    /** The pages that are not for processes, by their numbers: page 0, the kernel's image from 0x40000 on, the
        kernel's stack below 0x80000, and the I/O hole. */
    predicate Kept(f: nat) {
      f == 0 || 0x40 <= f < kernelEnd || f == 0x7F || 0xA0 <= f < 0x100
    }

    predicate Used(f: nat)
      requires f < |refs|
      reads this
    {
      refs[f] != 0
    }

    /** The allocator's invariant: no free page lies below the search position. */
    ghost predicate Valid()
      reads this
    {
      && npages <= 0x10_0000
      && |mem| == npages && |refs| == npages
      && (forall f :: 0 <= f < npages ==> |mem[f]| == ENTRIES)
      && (forall f :: 0 <= f < npages ==> refs[f] < REFCOUNT_END)
      && (forall f :: 0 <= f < npages && f < nextAlloc && Allocatable(f) ==> refs[f] != 0)
    }

    /** No allocatable page is free. */
    ghost predicate Full()
      requires Valid()
      reads this
    {
      forall f :: 0 <= f < npages && Allocatable(f) ==> refs[f] != 0
    }

    /** Memory as the boot loader leaves it: nothing is counted yet. */
    constructor (memory: Mem, kernelEnd: nat)
      requires |memory| <= 0x10_0000
      requires forall f :: 0 <= f < |memory| ==> |memory[f]| == ENTRIES
      ensures Valid()
      ensures mem == memory && npages == |memory| && this.kernelEnd == kernelEnd
      ensures forall f :: 0 <= f < npages ==> refs[f] == 0
    {
      npages := |memory|;
      this.kernelEnd := kernelEnd;
      mem := memory;
      refs := seq(|memory|, _ => 0);
      nextAlloc := 0;
    }

    /** Returns the lowest free allocatable page, or null exactly when the request is
        too large or no allocatable page is free. */
    method Kalloc(sz: nat) returns (pa: nat)
      requires Valid()
      modifies this
      ensures Valid()
      ensures pa == 0 <==> sz > PAGESIZE || old(Full())
      ensures pa == 0 && sz <= PAGESIZE ==> forall f :: 0 <= f < npages && !Kept(f) ==> old(refs)[f] != 0
      ensures pa != 0 ==> pa < npages && !Kept(pa) && forall f :: 0 <= f < pa && !Kept(f) ==> old(refs)[f] != 0
      ensures pa == 0 ==> mem == old(mem) && refs == old(refs)
      ensures pa != 0 ==>
                && Allocatable(pa) && old(refs)[pa] == 0
                && refs == old(refs)[pa := 1] && mem == old(mem)[pa := Filled(CC_WORD)]
                && forall f :: 0 <= f < pa && Allocatable(f) ==> old(refs)[f] != 0
    {
      if sz > PAGESIZE {
        return 0;
      }
      while nextAlloc < npages
        invariant Valid()
        invariant mem == old(mem) && refs == old(refs)
        decreases npages - nextAlloc
      {
        pa := nextAlloc;
        nextAlloc := nextAlloc + 1;
        if Allocatable(pa) && !Used(pa) {
          refs := refs[pa := 1];
          mem := mem[pa := Filled(CC_WORD)];
          return;
        }
      }
      pa := 0;
    }

    /** Drops one reference to a page; pages that the kernel does not manage are left alone. */
    method Kfree(pa: nat)
      requires Valid() && pa < npages
      modifies this
      ensures Valid() && mem == old(mem)
      ensures refs == if Allocatable(pa) && old(refs)[pa] != 0 then old(refs)[pa := old(refs)[pa] - 1] else old(refs)
    {
      if pa == 0 {
        return;
      }
      if Used(pa) && Allocatable(pa) {
        refs := refs[pa := refs[pa] - 1];
      }
      if pa < nextAlloc {
        nextAlloc := pa;
      }
    }

    /** `pages[pa].refcount += 1`, on a counter of 8 bits. It breaks the allocator's invariant exactly if the counter
        of an allocatable page below the search position wraps around. */
    method AddReference(pa: nat)
      requires Valid() && pa < npages
      modifies this`refs
      ensures refs == old(refs)[pa := if old(refs)[pa] + 1 == REFCOUNT_END then 0 else old(refs)[pa] + 1]
      ensures Valid() <==> old(refs)[pa] + 1 < REFCOUNT_END || pa >= nextAlloc || !Allocatable(pa)
    {
      refs := refs[pa := (refs[pa] + 1) % REFCOUNT_END];
    }

    /** A store to one word of physical memory. */
    method Store(pa: nat, i: nat, w: Word)
      requires Valid() && pa < npages && i < ENTRIES
      modifies this`mem
      ensures Valid()
      ensures mem == old(mem)[pa := old(mem)[pa][i := w]]
    {
      mem := mem[pa := mem[pa][i := w]];
    }

    /** `memset` or `memcpy` of a whole page. */
    method StorePage(pa: nat, p: Page)
      requires Valid() && pa < npages && |p| == ENTRIES
      modifies this`mem
      ensures Valid()
      ensures mem == old(mem)[pa := p]
    {
      mem := mem[pa := p];
    }
  }
}
