/** What the hardware makes of page tables: the walk from a linear address to a
    physical one, and the rights that its two entries leave (sections 4.3 and 4.6 of
    volume 3A of the Intel 64 and IA-32 Software Developer's Manual).  The numbers are
    those of the manual; that the kernel's page numbers and entries mean this is
    proved. */
module Mmu {
  import opened PageTable
  import opened Types

  /** An access to a linear address faults, or goes to a physical address and may
      write there, and be made in user mode, if both entries allow it. */
  datatype Access = Fault | Access(pa: nat, write: bool, user: bool)

  function Walk(mem: Mem, d: nat, la: Word): Access
    requires d < FRAMES
  {
    var pde := mem[d][la / 0x40_0000];
    if pde % 2 == 0 || pde / 4096 >= FRAMES then Fault
    else
      var pte := mem[pde / 4096][la / 4096 % 1024];
      if pte % 2 == 0 then Fault
      else Access(pte / 4096 * 4096 + la % 4096, pde / 2 % 2 == 1 && pte / 2 % 2 == 1, pde / 4 % 2 == 1 && pte / 4 % 2 == 1)
  }

  /** In an address space of the kernel's making the entry of a page alone decides. */
  function Granted(pte: Word, la: Word): Access {
    if Present(pte) then Access(FrameOf(pte) * 4096 + la % 4096, Writable(pte), ForUser(pte)) else Fault
  }

  lemma WalkIs(first: nat, mem: Mem, d: nat, own: Owner, la: Word)
    requires SpaceOk(first, mem, d, own)
    ensures la / 4096 < PAGES && Walk(mem, d, la) == Granted(Pte(mem, d, la / 4096), la)
  {
    var i := la / 0x40_0000;
    assert Pdx(la / 4096) == i && i < ENTRIES;
    assert TableOk(mem, d, own, i);
    if Present(mem[d][i]) { assert RefOk(first, mem, d, FrameOf(mem[d][i]), Table(i)); }
  }

  /** Every access goes where it went, with the same rights. */
  ghost predicate SameAccess(mem: Mem, mem': Mem, d: nat)
    requires d < FRAMES
  {
    forall la: Word :: Walk(mem', d, la) == Walk(mem, d, la)
  }

  lemma SameEntriesSameAccess(first: nat, mem: Mem, mem': Mem, d: nat, own: Owner, own': Owner)
    requires SpaceOk(first, mem, d, own) && SpaceOk(first, mem', d, own') && SameAll(mem, mem', d)
    ensures SameAccess(mem, mem', d)
  {
    hide SpaceOk, Walk, Pte;
    SpaceDirectory(first, mem, d, own);
    forall la: Word ensures Walk(mem', d, la) == Walk(mem, d, la) {
      WalkIs(first, mem, d, own, la);
      WalkIs(first, mem', d, own', la);
      assert Same(mem, mem', d, la / 4096);
    }
  }

  lemma SpaceDirectory(first: nat, mem: Mem, d: nat, own: Owner)
    requires SpaceOk(first, mem, d, own)
    ensures d < FRAMES
  {
  }
}
