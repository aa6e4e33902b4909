/** Page allocation (kalloc.c) and address spaces (vm.c), over one physical
    memory: the free list is threaded through the free pages themselves, and
    page tables are pages like any other. */
module Vm {
  import opened Types
  import opened Mmu
  import opened PageTable

  const PGSIZE := 4096
  const KERNBASE := 0x8000_0000
  const PHYSTOP := 0xE00_0000

  // ------------------------------------------------------------------
  // The free list.

  /** p2v of a frame's address. */
  function Kva(f: nat): Word
    requires f < FRAMES
  {
    f * PGSIZE + KERNBASE
  }

  /** v2p, as a frame number. */
  function FrameAt(v: Word): nat
    requires v >= KERNBASE
  {
    (v - KERNBASE) / PGSIZE
  }

  lemma KvaRoundTrip(f: nat)
    requires f < FRAMES
    ensures Kva(f) != 0 && Kva(f) >= KERNBASE && FrameAt(Kva(f)) == f && Kva(f) % PGSIZE == 0
  {
  }

  /** The pointer to the k-th free page, or null past the last. */
  function PtrAt(free: seq<nat>, k: nat): Word {
    if k < |free| && free[k] < FRAMES then Kva(free[k]) else 0
  }

  predicate FreeAt(first: nat, mem: Mem, free: seq<nat>, k: nat)
    requires k < |free|
  {
    first <= free[k] < FRAMES && mem[free[k]][0] == PtrAt(free, k + 1)
  }

  ghost predicate FreeOk(first: nat, mem: Mem, head: Word, free: seq<nat>) {
    && head == PtrAt(free, 0)
    && (forall k :: 0 <= k < |free| ==> FreeAt(first, mem, free, k))
    && (forall j, k :: 0 <= j < k < |free| ==> free[j] != free[k])
  }

  lemma PopKeepsFree(first: nat, mem: Mem, head: Word, free: seq<nat>)
    requires FreeOk(first, mem, head, free) && free != []
    ensures free[0] < FRAMES && head == Kva(free[0]) && first <= free[0] && free[0] !in free[1..]
    ensures FreeOk(first, mem, mem[free[0]][0], free[1..])
  {
    hide Kva;
    var rest := free[1..];
    assert FreeAt(first, mem, free, 0);
    forall k | 0 <= k < |rest| ensures FreeAt(first, mem, rest, k) { assert FreeAt(first, mem, free, k + 1); }
  }

  lemma PushKeepsFree(first: nat, mem: Mem, head: Word, free: seq<nat>, f: nat, page: Frame)
    requires FreeOk(first, mem, head, free) && first <= f < FRAMES && f !in free && page[0] == head
    ensures FreeOk(first, mem[f := page], Kva(f), [f] + free)
  {
    hide Kva;
    var mem', free' := mem[f := page], [f] + free;
    assert PtrAt(free', 1) == PtrAt(free, 0);
    forall k | 0 <= k < |free'| ensures FreeAt(first, mem', free', k) {
      if k > 0 {
        assert FreeAt(first, mem, free, k - 1) && free'[k] == free[k - 1];
        assert PtrAt(free', k + 1) == PtrAt(free, k);
      }
    }
  }

  lemma FreeUntouched(first: nat, mem: Mem, mem': Mem, head: Word, free: seq<nat>)
    requires FreeOk(first, mem, head, free) && forall k :: 0 <= k < |free| && free[k] < FRAMES ==> mem'[free[k]] == mem[free[k]]
    ensures FreeOk(first, mem', head, free)
  {
    forall k | 0 <= k < |free| ensures FreeAt(first, mem', free, k) { assert FreeAt(first, mem, free, k); }
  }

  /** The frames from lo to hi - 1, the last first. */
  function Descending(lo: nat, hi: nat): (s: seq<nat>)
    ensures |s| == if lo <= hi then hi - lo else 0
    ensures forall f :: f in s <==> lo <= f < hi
    decreases hi - lo
  {
    if hi <= lo then [] else [hi - 1] + Descending(lo, hi - 1)
  }

  lemma RangeStart(vstart: Word, vend: Word)
    requires KERNBASE < vstart
    ensures (vstart + PGSIZE - 1) / PGSIZE * PGSIZE == KERNBASE + RoundUp(vstart - KERNBASE) * PGSIZE
    ensures RoundUp(vstart - KERNBASE) * PGSIZE >= vstart - KERNBASE
  {
  }

  lemma RangePage(f: nat, vend: Word)
    requires KERNBASE + f * PGSIZE + PGSIZE <= vend && vend - KERNBASE <= PHYSTOP
    ensures FrameAt(KERNBASE + f * PGSIZE) == f && (KERNBASE + f * PGSIZE) % PGSIZE == 0
    ensures f < FRAMES && f < (vend - KERNBASE) / PGSIZE
  {
  }

  lemma RangeEnd(f: nat, lo: nat, vend: Word)
    requires KERNBASE <= vend < KERNBASE + f * PGSIZE + PGSIZE && lo <= f && (f <= (vend - KERNBASE) / PGSIZE || f == lo)
    ensures Descending(lo, f) == Descending(lo, (vend - KERNBASE) / PGSIZE)
  {
  }

  /** memset(v, 1, PGSIZE), then r->next. */
  function Junk(next: Word): Frame {
    var page: Frame := seq<Word>(1024, i => 0x0101_0101);
    page[0 := next]
  }

  /** A pointer to an entry of a page table. */
  datatype MaybeEntry = NoEntry | EntryAt(t: nat, j: nat)

  datatype Outcome = Mapped | NoMemory | PanicRemap

  // ------------------------------------------------------------------
  // What a change to one address space leaves alone.

  /** Frames were taken off the front of the free list. */
  predicate Suffix(free: seq<nat>, free': seq<nat>) {
    |free'| <= |free| && free' == free[|free| - |free'|..]
  }

  /** The space gained all the frames taken off the free list, as page tables,
      and m user pages. */
  ghost predicate Grown(own: Owner, free: seq<nat>, own': Owner, free': seq<nat>, v: nat, f0: nat, m: nat) {
    && Suffix(free, free')
    && (forall f :: f in own ==> f in own' && own'[f] == own[f])
    && (forall f :: f in own' && f !in own ==>
          (f in free && f !in free' && own'[f].Table?) || (f0 <= f < f0 + m && own'[f] == UserPage(v + f - f0)))
    && (forall f :: f in free && f !in free' ==> f in own')
  }

  /** Nothing was written but free frames and the space's own tables. */
  ghost predicate Kept(mem: Mem, mem': Mem, own: Owner, free: seq<nat>) {
    forall f :: 0 <= f < FRAMES && f !in free && (f in own ==> own[f].UserPage?) ==> mem'[f] == mem[f]
  }

  // ------------------------------------------------------------------
  // How many page tables a run of pages needs.

  predicate HasTable(mem: Mem, d: nat, i: nat)
    requires d < FRAMES && i < ENTRIES
  {
    Present(mem[d][i])
  }

  /** Page v of a run from v0 on is the first in a page table that is absent. */
  predicate NewTable(mem: Mem, d: nat, v0: nat, v: nat)
    requires d < FRAMES
  {
    v < PAGES && Pdx(v) < ENTRIES && !HasTable(mem, d, Pdx(v)) && (v <= v0 || Pdx(v) != Pdx(v - 1))
  }

  /** The page tables that mapping the pages from v0 to v - 1 has to add. */
  function Needs(mem: Mem, d: nat, v0: nat, v: nat): nat
    requires d < FRAMES
    decreases v - v0
  {
    if v <= v0 then 0 else Needs(mem, d, v0, v - 1) + if NewTable(mem, d, v0, v - 1) then 1 else 0
  }

  /** One past the last page table that m pages from v on lie in. */
  function TopTable(v: nat, m: nat): nat {
    if m == 0 then Pdx(v) else Pdx(v + m - 1) + 1
  }

  /** The page tables present are those of before and the ones from lo to hi - 1. */
  ghost predicate TablesAre(mem: Mem, mem': Mem, d: nat, lo: nat, hi: nat)
    requires d < FRAMES
  {
    forall i :: 0 <= i < ENTRIES ==> (HasTable(mem', d, i) <==> HasTable(mem, d, i) || lo <= i < hi)
  }

  lemma TablesKept(mem0: Mem, mem1: Mem, mem2: Mem, d: nat, lo: nat, hi: nat)
    requires d < FRAMES && TablesAre(mem0, mem1, d, lo, hi) && mem2[d] == mem1[d]
    ensures TablesAre(mem0, mem2, d, lo, hi)
  {
    forall i | 0 <= i < ENTRIES ensures HasTable(mem2, d, i) <==> HasTable(mem0, d, i) || lo <= i < hi {
      assert HasTable(mem1, d, i) <==> HasTable(mem0, d, i) || lo <= i < hi;
    }
  }

  lemma NeedsNothing(mem: Mem, d: nat, v: nat)
    requires d < FRAMES
    ensures Needs(mem, d, v, v) == 0 && TablesAre(mem, mem, d, Pdx(v), TopTable(v, 0))
  {
  }

  lemma NeedsNext(mem: Mem, d: nat, v0: nat, v: nat)
    requires d < FRAMES && v0 <= v
    ensures Needs(mem, d, v0, v + 1) == Needs(mem, d, v0, v) + if NewTable(mem, d, v0, v) then 1 else 0
  {
  }

  lemma PdxSteps(v: nat, m: nat)
    ensures Pdx(v) <= Pdx(v + m) && (m > 0 ==> Pdx(v) <= Pdx(v + m - 1) <= Pdx(v + m) <= Pdx(v + m - 1) + 1)
  {
  }

  lemma TableNeeded(mem0: Mem, mem: Mem, d: nat, v: nat, m: nat)
    requires d < FRAMES && v + m < PAGES && TablesAre(mem0, mem, d, Pdx(v), TopTable(v, m))
    ensures Pdx(v + m) < ENTRIES && (HasTable(mem, d, Pdx(v + m)) <==> !NewTable(mem0, d, v, v + m))
  {
    hide HasTable, Pdx;
    PageParts(v + m);
    PdxSteps(v, m);
  }

  lemma TablesNext(mem0: Mem, mem1: Mem, mem2: Mem, d: nat, v: nat, m: nat)
    requires d < FRAMES && v + m < PAGES && TablesAre(mem0, mem1, d, Pdx(v), TopTable(v, m))
    requires TablesAre(mem1, mem2, d, Pdx(v + m), Pdx(v + m) + 1)
    ensures TablesAre(mem0, mem2, d, Pdx(v), TopTable(v, m + 1))
  {
    hide HasTable, Pdx;
    PdxSteps(v, m);
  }

  lemma SuffixIn(free: seq<nat>, free': seq<nat>, f: nat)
    requires Suffix(free, free') && f in free'
    ensures f in free
  {
  }

  lemma GrownTwice(own0: Owner, free0: seq<nat>, own1: Owner, free1: seq<nat>, own2: Owner, free2: seq<nat>,
                   v: nat, f0: nat, m: nat, n: nat)
    requires Grown(own0, free0, own1, free1, v, f0, m) && Grown(own1, free1, own2, free2, v + m, f0 + m, n)
    ensures Grown(own0, free0, own2, free2, v, f0, m + n)
  {
    forall f | f in own2 && f !in own0
      ensures (f in free0 && f !in free2 && own2[f].Table?) || (f0 <= f < f0 + m + n && own2[f] == UserPage(v + f - f0))
    {
      if f in free2 { SuffixIn(free1, free2, f); }
      if f in free1 { SuffixIn(free0, free1, f); }
    }
  }

  lemma KeptTwice(mem0: Mem, mem1: Mem, mem2: Mem, own0: Owner, free0: seq<nat>, own1: Owner, free1: seq<nat>,
                  v: nat, f0: nat, m: nat)
    requires Kept(mem0, mem1, own0, free0) && Grown(own0, free0, own1, free1, v, f0, m)
    requires Kept(mem1, mem2, own1, free1)
    ensures Kept(mem0, mem2, own0, free0)
  {
    forall f | 0 <= f < FRAMES && f !in free0 && (f in own0 ==> own0[f].UserPage?) ensures mem2[f] == mem0[f] {
      if f in free1 { SuffixIn(free0, free1, f); }
    }
  }

  lemma StillNew(own: Owner, free: seq<nat>, own': Owner, free': seq<nat>, v: nat, f0: nat, m: nat, f: nat)
    requires Grown(own, free, own', free', v, f0, m) && f !in own && f !in free && !(f0 <= f < f0 + m)
    ensures f !in own' && f !in free'
  {
    if f in free' { SuffixIn(free, free', f); }
  }

  lemma GrownByPage(own: Owner, free: seq<nat>, own': Owner, free': seq<nat>, v: nat, f: nat)
    requires Grown(own, free, own', free', 0, 0, 0)
    ensures Grown(own, free, own', free', v, f, 1)
    ensures f !in own' ==> Grown(own, free, own'[f := UserPage(v)], free', v, f, 1)
  {
  }

  /** The pages that the bytes from va to va + size - 1 lie on. */
  function Span(va: nat, size: nat): nat
    requires size > 0
  {
    (va + size - 1) / PGSIZE - va / PGSIZE + 1
  }

  lemma MappedNothing(mem: Mem, d: nat, v: nat, f0: nat, perm: nat, own: Owner, free: seq<nat>)
    requires d < FRAMES && f0 <= PAGES && perm < 4096
    ensures MappedTo(mem, mem, d, v, f0, perm, 0) && Grown(own, free, own, free, v, f0, 0) && Kept(mem, mem, own, free)
  {
  }

  lemma MappedBefore(mem: Mem, mem': Mem, d: nat, v: nat, f0: nat, perm: nat, m: nat)
    requires d < FRAMES && f0 + m <= PAGES && perm < 4096 && v + m < PAGES && MappedTo(mem, mem', d, v, f0, perm, m)
    ensures Pte(mem', d, v + m) == Pte(mem, d, v + m)
  {
    assert MapAt(mem, mem', d, v + m, v, f0, perm, m);
  }

  // ------------------------------------------------------------------
  // The kernel's half of every address space.

  datatype Kmap = Kmap(virt: Word, physStart: Word, physEnd: Word, perm: nat)

  /** The table kmap, for a kernel whose writable data starts at page data. */
  function KmapAt(data: nat, k: nat): Kmap
    requires k < 4 && 0x8_0100 < data < 0x8_E000
  {
    if k == 0 then Kmap(KERNBASE, 0, 0x10_0000, PTE_W)
    else if k == 1 then Kmap(KERNBASE + 0x10_0000, 0x10_0000, data * PGSIZE - KERNBASE, 0)
    else if k == 2 then Kmap(data * PGSIZE, data * PGSIZE - KERNBASE, PHYSTOP, PTE_W)
    else Kmap(0xFE00_0000, 0xFE00_0000, 0, PTE_W)
  }

  /** The first page that the first k entries of kmap leave unmapped. */
  function Bound(data: nat, k: nat): nat
    requires k <= 4
  {
    [USER, 0x8_0100, data, 0x8_E000, PAGES][k]
  }

  /** What the kernel's half translates to: low memory and the devices. */
  function KernelPte(data: nat, v: nat): Word
    requires USER <= v < PAGES
  {
    if v < 0x8_E000 then Entry(v - USER, if 0x8_0100 <= v < data then 0 else PTE_W)
    else if v < 0xF_E000 then 0
    else Entry(v, PTE_W)
  }

  predicate KernelAt(mem: Mem, d: nat, data: nat, u: nat, bound: nat)
    requires d < FRAMES && u < PAGES
  {
    Pte(mem, d, u) == if USER <= u < bound then KernelPte(data, u) else 0
  }

  /** The kernel's half is mapped up to the bound, and no user page is. */
  ghost predicate KernelMap(mem: Mem, d: nat, data: nat, bound: nat)
    requires d < FRAMES
  {
    forall u :: 0 <= u < PAGES ==> KernelAt(mem, d, data, u, bound)
  }

  /** What setupkvm promises of every linear address, for kernel data from page data
      on: nothing below KERNBASE, then memory from 0 to PHYSTOP with the text read-only,
      then the devices, and none of it for user mode. */
  function KernelAccess(data: nat, la: Word): Access {
    if la < 0x8000_0000 then Fault
    else if la < 0x8E00_0000 then Access(la - 0x8000_0000, !(0x8010_0000 <= la < data * 4096), false)
    else if la < 0xFE00_0000 then Fault
    else Access(la, true, false)
  }

  lemma KernelGrants(data: nat, la: Word)
    requires 0x8_0100 < data < 0x8_E000
    ensures Granted(if la / 4096 < USER then 0 else KernelPte(data, la / 4096), la) == KernelAccess(data, la)
  {
    hide WithP;
    if la / 4096 >= 0x8_0000 && (la / 4096 < 0x8_E000 || la / 4096 >= 0xF_E000) {
      EntryParts(la / 4096, 2);
      if la / 4096 < 0x8_E000 {
        EntryParts(la / 4096 - 0x8_0000, 2);
        EntryParts(la / 4096 - 0x8_0000, 0);
      }
    }
  }

  lemma KernelWalk(first: nat, mem: Mem, d: nat, own: Owner, data: nat)
    requires SpaceOk(first, mem, d, own) && 0x8_0100 < data < 0x8_E000 && d < FRAMES && KernelMap(mem, d, data, PAGES)
    ensures forall la: Word :: Walk(mem, d, la) == KernelAccess(data, la)
  {
    hide SpaceOk, Walk, Pte, KernelPte, Granted, KernelAccess;
    forall la: Word ensures Walk(mem, d, la) == KernelAccess(data, la) {
      WalkIs(first, mem, d, own, la);
      KernelGrants(data, la);
      assert KernelAt(mem, d, data, la / 4096, PAGES);
    }
  }

  lemma KmapFits(data: nat, k: nat)
    requires k < 4 && 0x8_0100 < data < 0x8_E000
    ensures var e := KmapAt(data, k);
            var size := (e.physEnd - e.physStart) % 0x1_0000_0000;
            e.perm < 4096 && size > 0 && e.virt + size <= 0x1_0000_0000 && e.physStart % PGSIZE == 0 &&
            e.physStart / PGSIZE + Span(e.virt, size) <= PAGES && e.virt / PGSIZE >= USER
  {
  }

  lemma KernelMapNext(mem: Mem, mem': Mem, d: nat, data: nat, k: nat, m: nat)
    requires k < 4 && 0x8_0100 < data < 0x8_E000 && d < FRAMES && KernelMap(mem, d, data, Bound(data, k))
    requires var e := KmapAt(data, k);
             e.perm < 4096 && e.physStart / PGSIZE + m <= PAGES &&
             MappedTo(mem, mem', d, e.virt / PGSIZE, e.physStart / PGSIZE, e.perm, m)
    ensures var e := KmapAt(data, k);
            var n := Span(e.virt, (e.physEnd - e.physStart) % 0x1_0000_0000);
            if m == n then KernelMap(mem', d, data, Bound(data, k + 1))
            else m < n && e.virt / PGSIZE + m < PAGES ==> !Present(Pte(mem, d, e.virt / PGSIZE + m))
  {
    hide Pte, Entry;
    var e, bound := KmapAt(data, k), Bound(data, k + 1);
    ZeroIsAbsent();
    if m == Span(e.virt, (e.physEnd - e.physStart) % 0x1_0000_0000) {
      forall u | 0 <= u < PAGES ensures KernelAt(mem', d, data, u, bound) {
        assert KernelAt(mem, d, data, u, Bound(data, k));
        assert MapAt(mem, mem', d, u, e.virt / PGSIZE, e.physStart / PGSIZE, e.perm, m);
      }
    } else if e.virt / PGSIZE + m < PAGES {
      assert KernelAt(mem, d, data, e.virt / PGSIZE + m, Bound(data, k));
    }
  }

  lemma FirstFrame(mem: Mem, mem': Mem, free: seq<nat>, d: nat)
    requires free != [] && d == free[0] < FRAMES && d !in free[1..] && mem' == mem[d := ZeroFrame()]
    ensures Suffix(free, free[1..]) && FromFree(map[d := Directory], {}, free, free[1..]) && OnlyFree(mem, mem', free)
  {
  }

  // How many frames it takes: the directory, 56 page tables for low memory and 8
  // for the devices.
  const KERNEL_FRAMES := 65

  /** One past the last page table of low memory after k entries of kmap. */
  function KernelTop(data: nat, k: nat): nat
    requires k <= 4 && 0 < data
  {
    [512, 513, Pdx(data - 1) + 1, 568, 568][k]
  }

  function KernelTables(data: nat, k: nat): int
    requires k <= 4 && 0 < data
  {
    KernelTop(data, k) - 512 + if k == 4 then 8 else 0
  }

  ghost predicate TablesUpTo(mem: Mem, d: nat, data: nat, k: nat)
    requires d < FRAMES && k <= 4 && 0 < data
  {
    forall i :: 0 <= i < ENTRIES ==> (HasTable(mem, d, i) <==> 512 <= i < KernelTop(data, k) || (k == 4 && 1016 <= i))
  }

  /** A run of pages over tables of which just those below top are there. */
  lemma {:induction false} NeedsRun(mem: Mem, d: nat, v0: nat, v: nat, top: nat)
    requires d < FRAMES && v0 < v <= PAGES
    requires forall i :: Pdx(v0) <= i <= Pdx(v - 1) && i < ENTRIES ==> (HasTable(mem, d, i) <==> i < top)
    ensures var lo := if top <= Pdx(v0) then Pdx(v0) else top;
            Needs(mem, d, v0, v) == if Pdx(v - 1) < lo then 0 else Pdx(v - 1) + 1 - lo
    decreases v
  {
    hide Pdx, HasTable;
    PageParts(v - 1);
    NeedsNext(mem, d, v0, v - 1);
    PdxSteps(v0, v - 1 - v0);
    if v - 1 == v0 {
      NeedsNothing(mem, d, v0);
    } else {
      NeedsRun(mem, d, v0, v - 1, top);
    }
  }

  /** The pages of an entry of kmap, and the tables they lie in. */
  lemma KmapTables(data: nat, k: nat)
    requires k < 4 && 0x8_0100 < data < 0x8_E000
    ensures var e := KmapAt(data, k);
            var v, n := e.virt / PGSIZE, Span(e.virt, (e.physEnd - e.physStart) % 0x1_0000_0000);
            && n > 0 && v + n <= PAGES && KernelTop(data, k) <= KernelTop(data, k + 1) <= 568
            && (k < 3 ==> 512 <= Pdx(v) <= KernelTop(data, k) && Pdx(v + n - 1) + 1 == KernelTop(data, k + 1))
            && (k == 3 ==> Pdx(v) == 1016 && Pdx(v + n - 1) == 1023 && KernelTop(data, 3) == KernelTop(data, 4))
  {
  }

  lemma KernelTablesNext(mem: Mem, mem': Mem, d: nat, data: nat, k: nat, m: nat)
    requires k < 4 && 0x8_0100 < data < 0x8_E000 && d < FRAMES && TablesUpTo(mem, d, data, k)
    requires var v := KmapAt(data, k).virt / PGSIZE; TablesAre(mem, mem', d, Pdx(v), TopTable(v, m))
    ensures var e := KmapAt(data, k);
            var v, n := e.virt / PGSIZE, Span(e.virt, (e.physEnd - e.physStart) % 0x1_0000_0000);
            && n > 0 && v + n <= PAGES && Needs(mem, d, v, v + n) == KernelTables(data, k + 1) - KernelTables(data, k)
            && (m == n ==> TablesUpTo(mem', d, data, k + 1))
  {
    hide HasTable, Needs, KmapAt, Span, Pdx, KernelTop;
    var e := KmapAt(data, k);
    KmapFits(data, k);
    var v, n := e.virt / PGSIZE, Span(e.virt, (e.physEnd - e.physStart) % 0x1_0000_0000);
    KmapTables(data, k);
    NeedsRun(mem, d, v, v + n, KernelTop(data, k));
  }

  lemma KernelTotal(data: nat)
    requires 0x8_0100 < data < 0x8_E000
    ensures KernelTables(data, 0) == 0 && KernelTables(data, 4) == KERNEL_FRAMES - 1
    ensures forall k :: 0 <= k < 4 ==> KernelTables(data, k) <= KernelTables(data, k + 1)
    ensures forall k :: 0 <= k <= 4 ==> KernelTables(data, k) <= KernelTables(data, 4)
  {
  }

  lemma NeedsMore(mem: Mem, d: nat, v: nat, m: nat, n: nat)
    requires d < FRAMES && m < n && NewTable(mem, d, v, v + m)
    ensures Needs(mem, d, v, v + m) < Needs(mem, d, v, v + n)
  {
    NeedsNext(mem, d, v, v + m);
    NeedsGrow(mem, d, v, v + m + 1, v + n);
  }

  lemma {:induction false} NeedsGrow(mem: Mem, d: nat, v: nat, a: nat, b: nat)
    requires d < FRAMES && v <= a <= b
    ensures Needs(mem, d, v, a) <= Needs(mem, d, v, b)
    decreases b - a
  {
    if a < b { NeedsGrow(mem, d, v, a, b - 1); }
  }

  lemma EmptySpace(first: nat, mem: Mem, d: nat, data: nat)
    requires first <= d < FRAMES && mem[d] == ZeroFrame()
    ensures SpaceOk(first, mem, d, map[d := Directory]) && KernelMap(mem, d, data, USER)
    ensures 0 < data ==> TablesUpTo(mem, d, data, 0)
  {
    hide Present, FrameOf, Pdx, Ptx, KernelPte;
    ZeroIsAbsent();
    forall u | 0 <= u < PAGES ensures Pte(mem, d, u) == 0 && KernelAt(mem, d, data, u, USER) { PageParts(u); }
  }

  // ------------------------------------------------------------------
  // Spaces built from free frames alone.

  /** The frames taken off the free list are the space's, or lost. */
  ghost predicate FromFree(own: Owner, lost: set<nat>, free: seq<nat>, free': seq<nat>) {
    forall f :: (f in free && f !in free') <==> (f in own || f in lost)
  }

  ghost predicate OnlyFree(mem: Mem, mem': Mem, free: seq<nat>) {
    forall f :: 0 <= f < FRAMES && f !in free ==> mem'[f] == mem[f]
  }

  lemma SuffixTwice(free0: seq<nat>, free1: seq<nat>, free2: seq<nat>)
    requires Suffix(free0, free1) && Suffix(free1, free2)
    ensures Suffix(free0, free2)
  {
  }

  lemma OnlyFreeTwice(mem0: Mem, mem1: Mem, mem2: Mem, free: seq<nat>)
    requires OnlyFree(mem0, mem1, free) && OnlyFree(mem1, mem2, free)
    ensures OnlyFree(mem0, mem2, free)
  {
  }

  /** Mapping the kernel's half adds page tables only. */
  lemma KernelGrowth(first: nat, mem: Mem, mem': Mem, d: nat, own: Owner, own': Owner,
                     free0: seq<nat>, free1: seq<nat>, free2: seq<nat>, v: nat, f0: nat, m: nat)
    requires SpaceOk(first, mem', d, own') && v >= USER
    requires FromFree(own, {}, free0, free1) && Suffix(free0, free1)
    requires Grown(own, free1, own', free2, v, f0, m) && Kept(mem, mem', own, free1)
    ensures FromFree(own', {}, free0, free2) && OnlyFree(mem, mem', free0) && Suffix(free1, free2)
  {
    hide Pte, Present, FrameOf;
    forall f ensures (f in free0 && f !in free2) <==> f in own' {
      if f in own' { assert RefOk(first, mem', d, f, own'[f]); }
      if f in free1 { SuffixIn(free0, free1, f); }
      if f in free2 { SuffixIn(free1, free2, f); }
    }
    forall f | 0 <= f < FRAMES && f !in free0 ensures mem'[f] == mem[f] {
      if f in free1 { SuffixIn(free0, free1, f); }
    }
  }

  // ------------------------------------------------------------------
  // The walk of deallocuvm.

  /** PGROUNDUP, in pages. */
  function RoundUp(sz: nat): nat {
    (sz + PGSIZE - 1) / PGSIZE
  }

  /** The least number of pages that sz bytes fit in. */
  lemma RoundUpIsLeast(sz: nat)
    ensures sz <= 4096 * RoundUp(sz) < sz + 4096
  {
  }

  function Min(a: nat, b: nat): nat {
    if a <= b then a else b
  }

  /** The pages the walk from a0 never looks at: it steps over an absent page
      table by 1024 pages from wherever in it it stands, so in the first table
      present after it the pages below that offset are passed over. */
  ghost predicate Skipped(mem: Mem, d: nat, a0: nat, v: nat)
    requires d < FRAMES && v < PAGES
  {
    && Ptx(v) < Ptx(a0) && Pdx(v) > Pdx(a0)
    && forall i :: Pdx(a0) <= i < Pdx(v) && i < ENTRIES ==> !Present(mem[d][i])
  }

  /** The walk has reached a without passing over anything but what Skipped says. */
  ghost predicate Phase(mem: Mem, d: nat, a0: nat, a: nat)
    requires d < FRAMES
  {
    || (Ptx(a) == Ptx(a0) && Pdx(a0) <= Pdx(a) && forall i :: Pdx(a0) <= i < Pdx(a) && i < ENTRIES ==> !Present(mem[d][i]))
    || ((forall u :: a <= u < PAGES ==> !Skipped(mem, d, a0, u)) &&
        (Ptx(a) == 0 || (Pdx(a) < ENTRIES && Present(mem[d][Pdx(a)]))))
  }

  ghost predicate ClearedAt(mem: Mem, mem': Mem, d: nat, a0: nat, a: nat, u: nat)
    requires d < FRAMES && u < PAGES
  {
    Pte(mem', d, u) == if a0 <= u < a && Present(Pte(mem, d, u)) && !Skipped(mem, d, a0, u) then 0 else Pte(mem, d, u)
  }

  ghost predicate Cleared(mem: Mem, mem': Mem, d: nat, a0: nat, a: nat)
    requires d < FRAMES
  {
    forall u :: 0 <= u < PAGES ==> ClearedAt(mem, mem', d, a0, a, u)
  }

  /** What was released, and that it was exactly what the space lost. */
  ghost predicate Released(own: Owner, own': Owner, released: seq<nat>) {
    && (forall f :: f in own' ==> f in own && own'[f] == own[f])
    && (forall f :: f in own ==> (f !in own' <==> f in released))
    && (forall f :: f in released ==> f in own && own[f].UserPage?)
  }

  lemma ReleasedNothing(mem: Mem, d: nat, own: Owner, a0: nat)
    requires d < FRAMES
    ensures Cleared(mem, mem, d, a0, a0) && Released(own, own, []) && KeptAfterRelease(mem, mem, own, own)
  {
  }

  lemma ReleasedNext(mem0: Mem, mem1: Mem, mem2: Mem, own0: Owner, own1: Owner, own2: Owner, released: seq<nat>, f: nat)
    requires Released(own0, own1, released) && f in own1 && own1[f].UserPage? && own2 == own1 - {f}
    requires KeptAfterRelease(mem0, mem1, own0, own1) && KeptAfterRelease(mem1, mem2, own1, own2)
    ensures Released(own0, own2, [f] + released) && KeptAfterRelease(mem0, mem2, own0, own2)
  {
  }

  lemma StepParts(a: nat, u: nat)
    requires a <= u
    ensures Pdx(u) > Pdx(a) || (Pdx(u) == Pdx(a) && Ptx(u) >= Ptx(a))
    ensures u > a && Pdx(u) == Pdx(a) ==> Ptx(u) > Ptx(a)
    ensures u < a + ENTRIES ==> Pdx(u) == Pdx(a) || (Pdx(u) == Pdx(a) + 1 && Ptx(u) < Ptx(a))
  {
  }

  lemma NextParts(a: nat)
    ensures Pdx(a + ENTRIES) == Pdx(a) + 1 && Ptx(a + ENTRIES) == Ptx(a)
    ensures Ptx(a + 1) == 0 || Pdx(a + 1) == Pdx(a)
  {
  }

  lemma JumpTable(mem: Mem, mem': Mem, d: nat, a0: nat, a: nat, stop: nat)
    requires d < FRAMES && a0 <= a < stop <= USER && Phase(mem, d, a0, a) && Cleared(mem, mem', d, a0, a)
    requires Pdx(a) < ENTRIES && !Present(mem[d][Pdx(a)])
    ensures Phase(mem, d, a0, a + ENTRIES) && Cleared(mem, mem', d, a0, Min(a + ENTRIES, stop))
  {
    hide Present, FrameOf, Pdx, Ptx;
    NextParts(a);
    var b := Min(a + ENTRIES, stop);
    forall u | 0 <= u < PAGES ensures ClearedAt(mem, mem', d, a0, b, u) {
      assert ClearedAt(mem, mem', d, a0, a, u);
      if a <= u < b {
        StepParts(a, u);
        PageParts(u);
        ZeroIsAbsent();
      }
    }
  }

  lemma NextPage(mem: Mem, mem1: Mem, mem2: Mem, d: nat, a0: nat, a: nat)
    requires d < FRAMES && a0 <= a < USER && Phase(mem, d, a0, a) && Cleared(mem, mem1, d, a0, a)
    requires Pdx(a) < ENTRIES && Present(mem[d][Pdx(a)]) && SameBut(mem1, mem2, d, a)
    requires Pte(mem2, d, a) == if Present(Pte(mem1, d, a)) then 0 else Pte(mem1, d, a)
    ensures Phase(mem, d, a0, a + 1) && Cleared(mem, mem2, d, a0, a + 1)
  {
    hide Present, FrameOf, Pdx, Ptx, Pte;
    NextParts(a);
    StepParts(a0, a);
    var b := a + 1;
    forall u | a <= u < PAGES ensures !Skipped(mem, d, a0, u) { StepParts(a, u); }
    forall u | 0 <= u < PAGES ensures ClearedAt(mem, mem2, d, a0, b, u) {
      assert ClearedAt(mem, mem1, d, a0, a, u);
      if u != a { assert Same(mem1, mem2, d, u); }
    }
  }

  /** Nothing is skipped by a walk from the start of a table, or through one
      that is present. */
  lemma NothingSkipped(mem: Mem, d: nat, a0: nat, v: nat)
    requires d < FRAMES && v < PAGES && a0 < PAGES
    requires Ptx(a0) == 0 || (Pdx(a0) < ENTRIES && Present(mem[d][Pdx(a0)]))
    ensures !Skipped(mem, d, a0, v)
  {
  }

  /** deallocuvm empties the range if and only if no page of it is skipped. */
  lemma DeallocuvmEmpties(mem: Mem, mem': Mem, d: nat, a0: nat, stop: nat)
    requires d < FRAMES && stop <= USER && Cleared(mem, mem', d, a0, stop)
    ensures (forall v :: a0 <= v < stop ==> !Present(Pte(mem', d, v))) <==>
            (forall v :: a0 <= v < stop && Present(Pte(mem, d, v)) ==> !Skipped(mem, d, a0, v))
  {
    hide Present, Pte, Skipped;
    ZeroIsAbsent();
    forall v | a0 <= v < stop
      ensures Present(Pte(mem', d, v)) <==> Present(Pte(mem, d, v)) && Skipped(mem, d, a0, v)
    {
      assert ClearedAt(mem, mem', d, a0, stop, v);
    }
  }

  /** A space in which deallocuvm, asked to shrink it to one byte, leaves a page
      mapped: the page table for the first 4 megabytes is absent and the first
      page of the next one is there. */
  lemma DeallocuvmCanSkip() returns (mem: Mem, own: Owner)
    ensures SpaceOk(1, mem, 1, own) && Present(Pte(mem, 1, ENTRIES)) && RoundUp(1) <= ENTRIES < USER
    ensures Skipped(mem, 1, RoundUp(1), ENTRIES)
  {
    hide Present, FrameOf, Pdx, Ptx, Entry, Vpn, Pte, SpaceOk;
    var mem0 := ZeroMemory();
    EmptySpace(1, mem0, 1, 0);
    ZeroIsAbsent();
    EntryParts(2, PTE_W + PTE_U);
    EntryParts(3, PTE_W + PTE_U);
    var pde := Entry(2, PTE_W + PTE_U);
    var mem1: Mem := mem0[2 := ZeroFrame()][1 := mem0[1][1 := pde]];
    assert mem1[1][1] == pde;
    TableAdded(1, mem0, mem1, 1, map[1 := Directory], 1, 2, pde);
    var own1: Owner := map[1 := Directory][2 := Table(1)];
    VpnParts(1, 0);
    SecondTable();
    EntryWritten(1, mem1, 1, own1, 1, 0, Entry(3, PTE_W + PTE_U));
    mem := mem1[2 := mem1[2][0 := Entry(3, PTE_W + PTE_U)]];
    assert KernelAt(mem0, 1, 0, ENTRIES, USER) && Same(mem0, mem1, 1, ENTRIES);
    PageAdded(1, mem1, mem, 1, own1, ENTRIES, 3);
    own := own1[3 := UserPage(ENTRIES)];
  }

  lemma SecondTable()
    ensures Vpn(1, 0) == ENTRIES && Ptx(ENTRIES) < Ptx(RoundUp(1)) && Pdx(ENTRIES) == 1 && Pdx(RoundUp(1)) == 0
  {
  }

  /** After deallocuvm(pgdir, KERNBASE, 0) no user page is left. */
  lemma NoUserPages(first: nat, mem: Mem, mem': Mem, d: nat, own: Owner)
    requires SpaceOk(first, mem', d, own) && Cleared(mem, mem', d, 0, USER)
    ensures forall f :: f in own ==> !own[f].UserPage?
  {
    hide Present, FrameOf, Pte;
    ZeroIsAbsent();
    forall f | f in own ensures !own[f].UserPage? {
      assert RefOk(first, mem', d, f, own[f]);
      if own[f].UserPage? {
        var v := own[f].v;
        assert ClearedAt(mem, mem', d, 0, USER, v);
        NothingSkipped(mem, d, 0, v);
      }
    }
  }

  /** The frame that serves as table i, and that no other does. */
  lemma TableFrame(first: nat, mem: Mem, d: nat, own: Owner, i: nat)
    requires SpaceOk(first, mem, d, own) && i < ENTRIES
    ensures Present(mem[d][i]) ==> first <= FrameOf(mem[d][i]) < FRAMES && FrameOf(mem[d][i]) in own && own[FrameOf(mem[d][i])] == Table(i)
    ensures forall f :: f in own && own[f] == Table(i) ==> Present(mem[d][i]) && f == FrameOf(mem[d][i])
  {
    hide Present, FrameOf, Pte;
    SpaceFacts(first, mem, d, own, i);
    OwnedManaged(first, mem, d, own);
    forall f | f in own && own[f] == Table(i) ensures Present(mem[d][i]) && f == FrameOf(mem[d][i]) {
      assert RefOk(first, mem, d, f, own[f]);
    }
  }

  lemma AllTables(first: nat, mem: Mem, d: nat, own: Owner)
    requires SpaceOk(first, mem, d, own)
    ensures forall f :: f in own && own[f].Table? ==> own[f].i < ENTRIES
    ensures forall f :: f in own && own[f].Directory? ==> f == d
    ensures d in own && own[d] == Directory && first <= d < FRAMES
  {
    hide Present, FrameOf, Pte;
    forall f | f in own ensures (own[f].Table? ==> own[f].i < ENTRIES) && (own[f].Directory? ==> f == d) {
      assert RefOk(first, mem, d, f, own[f]);
    }
    OwnedManaged(first, mem, d, own);
  }

  // ------------------------------------------------------------------
  // Copying an address space.

  /** *pte &= ~PTE_U. */
  function ClearU(w: Word): Word {
    if (w / PTE_U) % 2 == 1 then w - PTE_U else w
  }

  /** An access that user mode no longer has, if so said. */
  function WithoutUser(a: Access, cleared: bool): Access {
    if cleared && a.Access? then a.(user := false) else a
  }

  lemma ClearedWalk(first: nat, mem: Mem, mem': Mem, d: nat, own: Owner, v: nat)
    requires SpaceOk(first, mem, d, own) && SpaceOk(first, mem', d, own) && d < FRAMES && v < PAGES
    requires Pte(mem', d, v) == ClearU(Pte(mem, d, v)) && SameBut(mem, mem', d, v)
    ensures forall la: Word :: Walk(mem', d, la) == WithoutUser(Walk(mem, d, la), la / 4096 == v)
  {
    hide SpaceOk, Walk, Pte, ClearU, FrameOf, FlagsOf;
    forall la: Word ensures Walk(mem', d, la) == WithoutUser(Walk(mem, d, la), la / 4096 == v) {
      WalkIs(first, mem, d, own, la);
      WalkIs(first, mem', d, own, la);
      ClearUParts(Pte(mem, d, la / 4096));
      if la / 4096 != v { assert Same(mem, mem', d, la / 4096); }
    }
  }

  lemma ClearUParts(w: Word)
    ensures Present(ClearU(w)) == Present(w) && FrameOf(ClearU(w)) == FrameOf(w) && !ForUser(ClearU(w))
    ensures Writable(ClearU(w)) == Writable(w) && ClearU(0) == 0
  {
    Eighths(w / 8, w % 8);
    if ForUser(w) { Eighths(w / 8, w % 8 - 4); }
  }

  lemma Eighths(q: nat, r: nat)
    requires r < 8
    ensures var w := 8 * q + r;
            w % 2 == r % 2 && w / 2 % 2 == r / 2 % 2 && w / 4 % 2 == r / 4 && w / 4096 == q / 512
  {
    var w, h := 8 * q + r, r / 2;
    Half(w, 4 * q + h, r % 2);
    Half(4 * q + h, 2 * q + h / 2, h % 2);
    Quarter(w, 2 * q + r / 4, r % 4);
    Half(2 * q + r / 4, q, r / 4);
    Frames(w, q / 512, 8 * (q % 512) + r);
  }

  datatype CopyStep = PageCopied | PageMissing | OutOfMemory

  /** A child space and everything written so far come from the free list of
      the start, which the parent has no part in. */
  ghost predicate Building(mem0: Mem, mem: Mem, own0: Owner, own: Owner, lost: set<nat>, free0: seq<nat>, free: seq<nat>) {
    && OnlyFree(mem0, mem, free0) && FromFree(own, lost, free0, free)
    && (forall f :: f in free ==> f in free0)
    && (forall f :: f in own0 ==> f !in free0)
  }

  /** Page u of the child against page u of the parent: below i the same flags
      and the same contents on another frame, above it nothing, and the
      kernel's half. */
  predicate CopiedAt(mem0: Mem, mem: Mem, d0: nat, d: nat, data: nat, i: nat, u: nat)
    requires d0 < FRAMES && d < FRAMES && u < PAGES
  {
    if u >= USER then Pte(mem, d, u) == KernelPte(data, u)
    else if u >= i then Pte(mem, d, u) == 0
    else
      var p, c := Pte(mem0, d0, u), Pte(mem, d, u);
      && Present(p) && Present(c) && FlagsOf(c) == FlagsOf(p)
      && FrameOf(p) < FRAMES && FrameOf(c) < FRAMES && mem[FrameOf(c)] == mem0[FrameOf(p)]
  }

  ghost predicate Copied(mem0: Mem, mem: Mem, d0: nat, d: nat, data: nat, i: nat)
    requires d0 < FRAMES && d < FRAMES
  {
    forall u :: 0 <= u < PAGES ==> CopiedAt(mem0, mem, d0, d, data, i, u)
  }

  lemma FlagsGrant(w: Word, w': Word)
    requires FlagsOf(w) == FlagsOf(w')
    ensures Writable(w) == Writable(w') && ForUser(w) == ForUser(w')
  {
    hide Writable, ForUser;
    LowBits(w);
    LowBits(w');
  }

  /** An address of the parent and of the child: the same rights, and the same place in
      pages with the same contents. */
  predicate CopiedAccess(mem0: Mem, mem: Mem, d0: nat, d: nat, la: Word)
    requires d0 < FRAMES && d < FRAMES
  {
    var p, c := Walk(mem0, d0, la), Walk(mem, d, la);
    && p.Access? && c.Access? && c.write == p.write && c.user == p.user && c.pa % 4096 == p.pa % 4096 == la % 4096
    && p.pa / 4096 < FRAMES && c.pa / 4096 < FRAMES && mem[c.pa / 4096] == mem0[p.pa / 4096]
  }

  lemma CopiedWalk(first: nat, mem0: Mem, mem: Mem, d0: nat, d: nat, own0: Owner, own: Owner, data: nat, n: nat)
    requires SpaceOk(first, mem0, d0, own0) && SpaceOk(first, mem, d, own) && 0x8_0100 < data < 0x8_E000
    requires d0 < FRAMES && d < FRAMES && n <= USER && Copied(mem0, mem, d0, d, data, n)
    ensures forall la: Word :: if la / 4096 < n then CopiedAccess(mem0, mem, d0, d, la) else Walk(mem, d, la) == KernelAccess(data, la)
  {
    hide SpaceOk, Walk, Pte, KernelPte, KernelAccess, FlagsOf, Writable, ForUser;
    forall la: Word ensures if la / 4096 < n then CopiedAccess(mem0, mem, d0, d, la) else Walk(mem, d, la) == KernelAccess(data, la) {
      var u := la / 4096;
      WalkIs(first, mem, d, own, la);
      WalkIs(first, mem0, d0, own0, la);
      assert CopiedAt(mem0, mem, d0, d, data, n, u);
      if u < n {
        FlagsGrant(Pte(mem0, d0, u), Pte(mem, d, u));
      } else {
        KernelGrants(data, la);
      }
    }
  }

  lemma ParentKept(first: nat, mem0: Mem, mem: Mem, d0: nat, own0: Owner, own: Owner, lost: set<nat>,
                   free0: seq<nat>, free: seq<nat>)
    requires SpaceOk(first, mem0, d0, own0) && Building(mem0, mem, own0, own, lost, free0, free)
    ensures SpaceOk(first, mem, d0, own0) && SameAll(mem0, mem, d0)
    ensures forall f :: f in own0 ==> f !in free && f < FRAMES && mem[f] == mem0[f]
  {
    hide SpaceOk;
    OwnedManaged(first, mem0, d0, own0);
    Untouched(first, mem0, mem, d0, own0);
  }

  lemma NoTableNoPage(mem: Mem, d: nat, v: nat)
    requires d < FRAMES && v < PAGES && Pdx(v) < ENTRIES && !Present(mem[d][Pdx(v)])
    ensures !Present(Pte(mem, d, v))
  {
    hide Present, Pdx, Ptx;
    ZeroIsAbsent();
  }

  lemma NotYetCopied(mem0: Mem, mem1: Mem, mem2: Mem, d0: nat, d: nat, data: nat, i: nat)
    requires d0 < FRAMES && d < FRAMES && i < USER && Copied(mem0, mem1, d0, d, data, i) && SameAll(mem1, mem2, d)
    ensures !Present(Pte(mem2, d, i))
  {
    hide Pte, Present;
    ZeroIsAbsent();
    assert CopiedAt(mem0, mem1, d0, d, data, i, i) && Same(mem1, mem2, d, i);
  }

  /** The page tables that n user pages from 0 on lie in. */
  function UserTables(n: nat): nat {
    TopTable(0, n)
  }

  /** The frames copyuvm takes for a process of n pages. */
  function CopyFrames(n: nat): nat {
    KERNEL_FRAMES + n + UserTables(n)
  }

  lemma CopyCost(mem: Mem, d: nat, data: nat, n: nat)
    requires d < FRAMES && n <= USER && 0 < data && TablesUpTo(mem, d, data, 4)
    ensures Cost(mem, d, 0, n) == n + UserTables(n)
  {
    hide HasTable;
    if n == 0 {
      NeedsNothing(mem, d, 0);
    } else {
      UserTablesLow(n);
      NeedsRun(mem, d, 0, n, 0);
    }
  }

  lemma UserTablesLow(n: nat)
    requires 0 < n <= USER
    ensures Pdx(0) == 0 && Pdx(n - 1) < 512
  {
  }

  /** A frame taken off the free list and filled. */
  lemma FrameTaken(first: nat, mem0: Mem, mem1: Mem, mem2: Mem, d: nat, own0: Owner, own: Owner,
                   free0: seq<nat>, free1: seq<nat>, g: nat)
    requires SpaceOk(first, mem1, d, own) && Building(mem0, mem1, own0, own, {}, free0, free1)
    requires free1 != [] && g == free1[0] && g < FRAMES && forall f :: 0 <= f < FRAMES && f != g ==> mem2[f] == mem1[f]
    requires (forall f :: f in own ==> f !in free1) && g !in free1[1..]
    ensures SpaceOk(first, mem2, d, own) && SameAll(mem1, mem2, d) && Building(mem0, mem2, own0, own, {g}, free0, free1[1..])
  {
    hide SpaceOk;
    OwnedManaged(first, mem1, d, own);
    Untouched(first, mem1, mem2, d, own);
  }

  lemma OnePage(i: nat, g: nat)
    ensures i * PGSIZE % PGSIZE == 0 && i * PGSIZE / PGSIZE == i && g * PGSIZE % PGSIZE == 0 && g * PGSIZE / PGSIZE == g
    ensures Span(i * PGSIZE, PGSIZE) == 1
  {
  }

  lemma PageMapped(first: nat, mem: Mem, mem': Mem, d: nat, own: Owner, v: nat, g: nat, perm: nat)
    requires d < FRAMES && v < USER && g < FRAMES && perm < 4096
    requires SpaceOk(first, mem', d, own) && MappedTo(mem, mem', d, v, g, perm, 1)
    ensures Pte(mem', d, v) == Entry(g, perm) && g in own && own[g] == UserPage(v)
  {
    hide Pte, Entry, Present, FrameOf, SpaceOk;
    assert MapAt(mem, mem', d, v, v, g, perm, 1);
    EntryParts(g, perm);
    PageFacts(first, mem', d, own, v);
  }

  datatype CopyResult = Copy(d: nat) | CopyFailed | CopyPanics

  lemma CopyStarts(mem0: Mem, mem: Mem, d0: nat, d: nat, data: nat, own0: Owner, own: Owner, free0: seq<nat>, free: seq<nat>)
    requires d0 < FRAMES && d < FRAMES && KernelMap(mem, d, data, PAGES) && OnlyFree(mem0, mem, free0)
    requires FromFree(own, {}, free0, free) && Suffix(free0, free) && forall f :: f in own0 ==> f !in free0
    ensures Building(mem0, mem, own0, own, {}, free0, free) && Copied(mem0, mem, d0, d, data, 0)
  {
    hide Pte, KernelPte;
    forall f | f in free ensures f in free0 { SuffixIn(free0, free, f); }
    forall u | 0 <= u < PAGES ensures CopiedAt(mem0, mem, d0, d, data, 0, u) { assert KernelAt(mem, d, data, u, PAGES); }
  }

  lemma SetupLost(first: nat, mem0: Mem, mem: Mem, d0: nat, own0: Owner, free0: seq<nat>, free: seq<nat>)
    requires SpaceOk(first, mem0, d0, own0) && OnlyFree(mem0, mem, free0) && free == [] && forall f :: f in own0 ==> f !in free0
    ensures SpaceOk(first, mem, d0, own0) && forall f :: f in own0 ==> f < FRAMES && mem[f] == mem0[f]
  {
    hide SpaceOk;
    OwnedManaged(first, mem0, d0, own0);
    Untouched(first, mem0, mem, d0, own0);
  }

  lemma CopyUndone(first: nat, mem0: Mem, mem1: Mem, mem2: Mem, d0: nat, own0: Owner, own: Owner, lost: set<nat>,
                   free0: seq<nat>, free1: seq<nat>, released: seq<nat>)
    requires SpaceOk(first, mem0, d0, own0) && Building(mem0, mem1, own0, own, lost, free0, free1)
    requires forall f :: 0 <= f < FRAMES && f !in own ==> mem2[f] == mem1[f]
    requires forall f :: f in released <==> f in own
    ensures SpaceOk(first, mem2, d0, own0)
    ensures forall f :: f in own0 ==> f < FRAMES && mem2[f] == mem0[f] && f !in released + free1
    ensures forall f :: f in free0 <==> f in released + free1 || f in lost
  {
    hide SpaceOk;
    OwnedManaged(first, mem0, d0, own0);
    Untouched(first, mem0, mem2, d0, own0);
  }

  lemma ChildApart(mem0: Mem, mem: Mem, own0: Owner, own: Owner, free0: seq<nat>, free: seq<nat>)
    requires Building(mem0, mem, own0, own, {}, free0, free)
    ensures FromFree(own, {}, free0, free) && forall f :: f in own ==> f !in own0
  {
  }

  lemma BuiltOn(first: nat, mem0: Mem, mem1: Mem, mem2: Mem, d: nat, own0: Owner, own: Owner, own': Owner,
                free0: seq<nat>, free1: seq<nat>, free2: seq<nat>, g: nat, i: nat, m: nat)
    requires Building(mem0, mem1, own0, own, {g}, free0, free1) && m <= 1 && (m == 1 ==> g in own')
    requires Grown(own, free1, own', free2, i, g, m) && Kept(mem1, mem2, own, free1)
    ensures Building(mem0, mem2, own0, own', if m == 1 then {} else {g}, free0, free2)
  {
    assert g in free0 && g !in free1;
    forall f ensures (f in free0 && f !in free2) <==> (f in own' || (m != 1 && f == g)) {
      if f in free2 { SuffixIn(free1, free2, f); }
    }
    forall f | f in free2 ensures f in free0 { SuffixIn(free1, free2, f); }
  }

  lemma CopiedNext(first: nat, mem0: Mem, mem1: Mem, mem2: Mem, mem3: Mem, d0: nat, d: nat, data: nat,
                   own: Owner, free: seq<nat>, i: nat, g: nat)
    requires d0 < FRAMES && d < FRAMES && i < USER && g < FRAMES && g !in own && g !in free
    requires Copied(mem0, mem1, d0, d, data, i) && SpaceOk(first, mem1, d, own)
    requires var p := Pte(mem0, d0, i);
             Present(p) && FrameOf(p) < FRAMES && mem2 == mem1[g := mem1[FrameOf(p)]] && mem1[FrameOf(p)] == mem0[FrameOf(p)] &&
             SameAll(mem1, mem2, d) && MappedTo(mem2, mem3, d, i, g, FlagsOf(p), 1)
    requires Kept(mem2, mem3, own, free) && forall f :: f in own ==> f !in free
    ensures Copied(mem0, mem3, d0, d, data, i + 1)
  {
    hide Present, FrameOf, FlagsOf, Pte, Entry, KernelPte, SpaceOk;
    var n, p := i + 1, Pte(mem0, d0, i);
    EntryWhole(p);
    EntryParts(g, FlagsOf(p));
    forall u | 0 <= u < PAGES ensures CopiedAt(mem0, mem3, d0, d, data, n, u) {
      assert CopiedAt(mem0, mem1, d0, d, data, i, u);
      assert Same(mem1, mem2, d, u) && MapAt(mem2, mem3, d, u, i, g, FlagsOf(p), 1);
      if u < i { PageFacts(first, mem1, d, own, u); }
    }
  }

  // ------------------------------------------------------------------
  // Growing an address space.

  /** A zeroed page, writable by the user. */
  predicate NewPage(mem: Mem, d: nat, u: nat)
    requires d < FRAMES && u < PAGES
  {
    var w := Pte(mem, d, u);
    Present(w) && FlagsOf(w) == WithP(PTE_W + PTE_U) && FrameOf(w) < FRAMES && mem[FrameOf(w)] == ZeroFrame()
  }

  predicate ExtendedAt(mem0: Mem, mem: Mem, d: nat, a0: nat, a: nat, lost: set<nat>, u: nat)
    requires d < FRAMES && u < PAGES
  {
    if a0 <= u < a && (u < a - 1 || lost == {}) then NewPage(mem, d, u) else Pte(mem, d, u) == Pte(mem0, d, u)
  }

  /** New pages from a0 to a - 1, the last one missing exactly if a frame was lost. */
  ghost predicate Extended(mem0: Mem, mem: Mem, d: nat, a0: nat, a: nat, lost: set<nat>)
    requires d < FRAMES
  {
    forall u :: 0 <= u < PAGES ==> ExtendedAt(mem0, mem, d, a0, a, lost, u)
  }

  /** A user may read and write there, and finds a page of zeros. */
  predicate NewAccess(mem: Mem, d: nat, la: Word)
    requires d < FRAMES
  {
    var a := Walk(mem, d, la);
    a.Access? && a.write && a.user && a.pa % 4096 == la % 4096 && a.pa / 4096 < FRAMES && mem[a.pa / 4096] == ZeroFrame()
  }

  /** The addresses of the new pages, all of them or all but the last page's; the others
      as they were. */
  predicate GrownAccess(mem0: Mem, mem: Mem, d: nat, a0: nat, a: nat, lost: set<nat>, la: Word)
    requires d < FRAMES
  {
    if a0 <= la / 4096 < a && (la / 4096 < a - 1 || lost == {}) then NewAccess(mem, d, la) else Walk(mem, d, la) == Walk(mem0, d, la)
  }

  lemma ExtendedWalk(first: nat, mem0: Mem, mem: Mem, d: nat, own0: Owner, own: Owner, a0: nat, a: nat, lost: set<nat>)
    requires SpaceOk(first, mem0, d, own0) && SpaceOk(first, mem, d, own) && d < FRAMES && Extended(mem0, mem, d, a0, a, lost)
    ensures forall la: Word :: GrownAccess(mem0, mem, d, a0, a, lost, la)
  {
    hide SpaceOk, Walk, Pte, FlagsOf, Writable, ForUser;
    forall la: Word ensures GrownAccess(mem0, mem, d, a0, a, lost, la) {
      var u := la / 4096;
      WalkIs(first, mem, d, own, la);
      WalkIs(first, mem0, d, own0, la);
      assert ExtendedAt(mem0, mem, d, a0, a, lost, u);
      NewPageFlags(Pte(mem, d, u));
    }
  }

  lemma NewPageFlags(w: Word)
    ensures FlagsOf(w) == WithP(PTE_W + PTE_U) ==> Writable(w) && ForUser(w)
  {
    LowBits(w);
  }

  predicate RestoredAt(mem0: Mem, mem: Mem, d: nat, a0: nat, u: nat)
    requires d < FRAMES && u < PAGES
  {
    if a0 <= u < USER then !Present(Pte(mem, d, u)) else Pte(mem, d, u) == Pte(mem0, d, u)
  }

  /** No user page from a0 on, and below it the translation of before. */
  ghost predicate Restored(mem0: Mem, mem: Mem, d: nat, a0: nat)
    requires d < FRAMES
  {
    forall u :: 0 <= u < PAGES ==> RestoredAt(mem0, mem, d, a0, u)
  }

  /** Frames that left the free list went to the space, or are lost. */
  ghost predicate Conserved(own: Owner, own': Owner, lost: set<nat>, free: seq<nat>, free': seq<nat>) {
    && (forall f :: f in own ==> f in own' && own'[f] == own[f])
    && (forall f :: f in free' ==> f in free)
    && (forall f :: f in lost ==> f !in own')
    && (forall f :: (f in free && f !in free') <==> ((f in own' && f !in own) || f in lost))
  }

  /** The frames it takes to map the pages from a0 to a - 1: the pages and the page
      tables they lack. */
  function Cost(mem: Mem, d: nat, a0: nat, a: nat): nat
    requires d < FRAMES && a0 <= a
  {
    a - a0 + Needs(mem, d, a0, a)
  }

  lemma {:induction false} CostGrows(mem: Mem, d: nat, a0: nat, a: nat, b: nat)
    requires d < FRAMES && a0 <= a <= b
    ensures Cost(mem, d, a0, a) + (b - a) <= Cost(mem, d, a0, b)
    decreases b - a
  {
    if a < b { CostGrows(mem, d, a0, a, b - 1); }
  }

  /** The account on the way: what has gone is the cost so far, or one frame less
      if the last page is missing for want of its table. */
  ghost predicate Tally(mem0: Mem, mem: Mem, d: nat, a0: nat, a: nat, lost: set<nat>, before: nat, left: nat)
    requires d < FRAMES && a0 <= a
  {
    if lost == {} then
      before == left + Cost(mem0, d, a0, a) && TablesAre(mem0, mem, d, Pdx(a0), TopTable(a0, a - a0))
    else
      left == 0 && before + 1 == Cost(mem0, d, a0, a) && a > a0 && NewTable(mem0, d, a0, a - 1)
  }

  lemma TallyStarts(mem: Mem, d: nat, a0: nat, n: nat)
    requires d < FRAMES
    ensures Tally(mem, mem, d, a0, a0, {}, n, n)
  {
  }

  lemma TallyNext(mem0: Mem, mem1: Mem, mem2: Mem, mem3: Mem, d: nat, a0: nat, a: nat, g: nat, m: nat,
                  before: nat, left1: nat, left3: nat)
    requires d < FRAMES && a0 <= a < USER && m <= 1 && Tally(mem0, mem1, d, a0, a, {}, before, left1) && left1 > 0
    requires mem2[d] == mem1[d] && left3 + Needs(mem2, d, a, a + m) == left1 - 1
    requires TablesAre(mem2, mem3, d, Pdx(a), TopTable(a, m)) && (m == 0 ==> left3 == 0 && NewTable(mem2, d, a, a))
    ensures Tally(mem0, mem3, d, a0, a + 1, if m == 1 then {} else {g}, before, left3)
  {
    hide Pdx;
    TableNeeded(mem0, mem1, d, a0, a - a0);
    assert HasTable(mem2, d, Pdx(a)) == HasTable(mem1, d, Pdx(a));
    assert NewTable(mem2, d, a, a) <==> NewTable(mem0, d, a0, a);
    if m == 1 {
      assert Needs(mem2, d, a, a) == 0;
      TablesMove(mem1, mem2, mem3, d, Pdx(a), Pdx(a) + 1);
      TablesNext(mem0, mem1, mem3, d, a0, a - a0);
    } else {
      assert {g} != {};
    }
  }

  lemma TablesMove(mem1: Mem, mem2: Mem, mem3: Mem, d: nat, lo: nat, hi: nat)
    requires d < FRAMES && mem2[d] == mem1[d] && TablesAre(mem2, mem3, d, lo, hi)
    ensures TablesAre(mem1, mem3, d, lo, hi)
  {
    forall i | 0 <= i < ENTRIES ensures HasTable(mem3, d, i) <==> HasTable(mem1, d, i) || lo <= i < hi {
      assert HasTable(mem3, d, i) <==> HasTable(mem2, d, i) || lo <= i < hi;
    }
  }

  lemma TallyShort(mem0: Mem, mem: Mem, d: nat, a: nat, before: nat)
    requires d < FRAMES && Tally(mem0, mem, d, 0, a, {}, before, 0)
    ensures before < Cost(mem0, d, 0, a + 1)
  {
    CostGrows(mem0, d, 0, a, a + 1);
  }

  lemma TallyDone(mem0: Mem, mem: Mem, d: nat, a: nat, before: nat, left: nat)
    requires d < FRAMES && Tally(mem0, mem, d, 0, a, {}, before, left)
    ensures before == left + Cost(mem0, d, 0, a)
  {
  }

  lemma TallyLost(mem0: Mem, mem: Mem, d: nat, a: nat, g: nat, before: nat, left: nat)
    requires d < FRAMES && Tally(mem0, mem, d, 0, a, {g}, before, left)
    ensures before < Cost(mem0, d, 0, a)
  {
    assert {g} != {};
  }

  /** The last page's table is the one frame that is not there. */
  predicate LastTableMissing(mem: Mem, d: nat, a0: nat, stop: nat, frames: nat)
    requires d < FRAMES && a0 <= stop
  {
    a0 < stop && NewTable(mem, d, a0, stop - 1) && frames + 1 == Cost(mem, d, a0, stop)
  }

  lemma TallySettles(mem0: Mem, mem: Mem, d: nat, a0: nat, a: nat, stop: nat, lost: set<nat>, before: nat, left: nat)
    requires d < FRAMES && a0 <= a <= stop && Tally(mem0, mem, d, a0, a, lost, before, left)
    ensures a == stop ==> if lost == {} then before >= Cost(mem0, d, a0, stop) && !LastTableMissing(mem0, d, a0, stop, before)
                          else before < Cost(mem0, d, a0, stop) && LastTableMissing(mem0, d, a0, stop, before)
    ensures a < stop && left == 0 ==>
              before < Cost(mem0, d, a0, stop) && !LastTableMissing(mem0, d, a0, stop, before)
    ensures lost == {} ==> TablesAre(mem0, mem, d, Pdx(a0), TopTable(a0, a - a0))
  {
    if a < stop {
      CostGrows(mem0, d, a0, a, stop - 1);
    }
  }

  lemma AllocStarts(mem: Mem, d: nat, a0: nat, own: Owner, free: seq<nat>)
    requires d < FRAMES
    ensures Extended(mem, mem, d, a0, a0, {}) && Conserved(own, own, {}, free, free) && Kept(mem, mem, own, free)
  {
  }

  lemma PageTaken(first: nat, mem0: Mem, mem1: Mem, mem2: Mem, d: nat, own0: Owner, own: Owner,
                  free0: seq<nat>, free1: seq<nat>, g: nat)
    requires SpaceOk(first, mem1, d, own) && Conserved(own0, own, {}, free0, free1) && Kept(mem0, mem1, own0, free0)
    requires free1 != [] && g == free1[0] && g < FRAMES && g !in free1[1..] && mem2 == mem1[g := ZeroFrame()]
    requires forall f :: f in own ==> f !in free1
    ensures SpaceOk(first, mem2, d, own) && SameAll(mem1, mem2, d)
    ensures Conserved(own0, own, {g}, free0, free1[1..]) && Kept(mem0, mem2, own0, free0) && g !in own0
  {
    hide SpaceOk;
    assert g in free1;
    OwnedManaged(first, mem1, d, own);
    Untouched(first, mem1, mem2, d, own);
  }

  lemma ConservedNext(mem0: Mem, mem1: Mem, mem2: Mem, own0: Owner, own1: Owner, own2: Owner,
                      free0: seq<nat>, free1: seq<nat>, free2: seq<nat>, g: nat, a: nat, m: nat)
    requires Conserved(own0, own1, {g}, free0, free1) && Kept(mem0, mem1, own0, free0) && g !in own0
    requires Grown(own1, free1, own2, free2, a, g, m) && Kept(mem1, mem2, own1, free1)
    requires m <= 1 && (m == 1 ==> g in own2) && forall f :: f in own1 ==> f !in free1
    ensures Conserved(own0, own2, if m == 1 then {} else {g}, free0, free2) && Kept(mem0, mem2, own0, free0)
  {
    assert g in free0 && g !in free1;
    forall f | f in free2 ensures f in free1 { SuffixIn(free1, free2, f); }
    forall f ensures (f in free0 && f !in free2) <==> ((f in own2 && f !in own0) || (m != 1 && f == g)) {
      if f in free2 { SuffixIn(free1, free2, f); }
    }
  }

  lemma PageNotThere(mem0: Mem, mem1: Mem, mem2: Mem, d: nat, a0: nat, a: nat)
    requires d < FRAMES && a < USER && Extended(mem0, mem1, d, a0, a, {}) && SameAll(mem1, mem2, d) && !Present(Pte(mem0, d, a))
    ensures !Present(Pte(mem2, d, a))
  {
    hide Pte, Present;
    assert ExtendedAt(mem0, mem1, d, a0, a, {}, a) && Same(mem1, mem2, d, a);
  }

  lemma ExtendedNext(first: nat, mem0: Mem, mem1: Mem, mem2: Mem, mem3: Mem, d: nat, a0: nat, a: nat, own: Owner,
                     free: seq<nat>, g: nat, m: nat)
    requires d < FRAMES && a0 <= a < USER && g < FRAMES && g !in own && g !in free && m <= 1
    requires Extended(mem0, mem1, d, a0, a, {}) && SpaceOk(first, mem1, d, own) && SameAll(mem1, mem2, d)
    requires mem2 == mem1[g := ZeroFrame()] && MappedTo(mem2, mem3, d, a, g, PTE_W + PTE_U, m)
    requires Kept(mem2, mem3, own, free) && forall f :: f in own ==> f !in free
    ensures Extended(mem0, mem3, d, a0, a + 1, if m == 1 then {} else {g})
  {
    hide Present, FrameOf, FlagsOf, Pte, Entry, SpaceOk, WithP;
    var b, lost := a + 1, if m == 1 then {} else {g};
    assert lost == {} <==> m == 1;
    EntryParts(g, PTE_W + PTE_U);
    forall u | 0 <= u < PAGES ensures ExtendedAt(mem0, mem3, d, a0, b, lost, u) {
      assert ExtendedAt(mem0, mem1, d, a0, a, {}, u) && Same(mem1, mem2, d, u);
      assert MapAt(mem2, mem3, d, u, a, g, PTE_W + PTE_U, m);
      if a0 <= u < a { PageFacts(first, mem1, d, own, u); }
    }
  }

  /** When memory runs out, what was mapped is unmapped: the walk of deallocuvm
      skips nothing here, because the first page mapped has a table. */
  lemma AllocUndone(first: nat, mem0: Mem, mem1: Mem, mem2: Mem, d: nat, a0: nat, a: nat, stop: nat,
                    own0: Owner, own1: Owner, own2: Owner, lost: set<nat>, free0: seq<nat>, free1: seq<nat>, released: seq<nat>)
    requires d < FRAMES && a0 <= a < stop <= USER && SpaceOk(first, mem0, d, own0) && SpaceOk(first, mem2, d, own2)
    requires forall v :: a0 <= v < USER ==> !Present(Pte(mem0, d, v))
    requires Extended(mem0, mem1, d, a0, a, lost) && Cleared(mem1, mem2, d, a0, stop)
    requires Conserved(own0, own1, lost, free0, free1) && Kept(mem0, mem1, own0, free0)
    requires Released(own1, own2, released) && KeptAfterRelease(mem1, mem2, own1, own2)
    requires forall f :: f in own0 ==> f !in free0
    ensures Restored(mem0, mem2, d, a0) && Conserved(own0, own2, lost, free0, released + free1) && Kept(mem0, mem2, own0, free0)
  {
    hide Present, FrameOf, Pte, SpaceOk, Extended, Cleared, Restored, Skipped;
    UndoneTranslation(mem0, mem1, mem2, d, a0, a, stop, lost);
    UndoneOwners(first, mem0, mem2, d, a0, own0, own1, own2, lost, free0, free1);
    forall f ensures (f in free0 && f !in released + free1) <==> ((f in own2 && f !in own0) || f in lost) {
      assert f in released + free1 <==> f in released || f in free1;
    }
  }

  lemma UndoneTranslation(mem0: Mem, mem1: Mem, mem2: Mem, d: nat, a0: nat, a: nat, stop: nat, lost: set<nat>)
    requires d < FRAMES && a0 <= a < stop <= USER
    requires forall v :: a0 <= v < USER ==> !Present(Pte(mem0, d, v))
    requires Extended(mem0, mem1, d, a0, a, lost) && Cleared(mem1, mem2, d, a0, stop)
    ensures Restored(mem0, mem2, d, a0)
  {
    hide Present, FrameOf, FlagsOf, Pte, Skipped, Pdx, Ptx;
    ZeroIsAbsent();
    forall u | 0 <= u < PAGES ensures RestoredAt(mem0, mem2, d, a0, u) {
      assert ExtendedAt(mem0, mem1, d, a0, a, lost, u) && ClearedAt(mem1, mem2, d, a0, stop, u);
      assert ExtendedAt(mem0, mem1, d, a0, a, lost, a0);
      if a0 <= u < a && Present(Pte(mem1, d, u)) && !Present(Pte(mem0, d, u)) {
        assert Present(Pte(mem1, d, a0));
        AbsentTable(mem1, d, a0);
        NothingSkipped(mem1, d, a0, u);
      }
    }
  }

  lemma UndoneOwners(first: nat, mem0: Mem, mem2: Mem, d: nat, a0: nat, own0: Owner, own1: Owner, own2: Owner,
                     lost: set<nat>, free0: seq<nat>, free1: seq<nat>)
    requires d < FRAMES && SpaceOk(first, mem0, d, own0) && SpaceOk(first, mem2, d, own2) && Restored(mem0, mem2, d, a0)
    requires forall v :: a0 <= v < USER ==> !Present(Pte(mem0, d, v))
    requires Conserved(own0, own1, lost, free0, free1)
    requires forall f :: f in own1 && !own1[f].UserPage? ==> f in own2
    requires forall f :: f in own2 ==> f in own1 && own2[f] == own1[f]
    ensures forall f :: f in own0 ==> f in own2 && own2[f] == own0[f]
  {
    hide Present, FrameOf, Pte;
    forall f | f in own0 ensures f in own2 {
      assert RefOk(first, mem0, d, f, own0[f]);
      if own0[f].UserPage? {
        assert RestoredAt(mem0, mem2, d, a0, own0[f].v) && PageOk(mem2, d, own2, own0[f].v);
      }
    }
  }

  lemma OwnedManaged(first: nat, mem: Mem, d: nat, own: Owner)
    requires SpaceOk(first, mem, d, own)
    ensures forall f :: f in own ==> first <= f < FRAMES
  {
    forall f | f in own ensures first <= f < FRAMES { assert RefOk(first, mem, d, f, own[f]); }
  }

  lemma PageFacts(first: nat, mem: Mem, d: nat, own: Owner, v: nat)
    requires SpaceOk(first, mem, d, own) && v < USER && Present(Pte(mem, d, v))
    ensures var f := FrameOf(Pte(mem, d, v)); first <= f < FRAMES && f in own && own[f] == UserPage(v)
  {
    hide Present, FrameOf, Pte;
    assert PageOk(mem, d, own, v);
    assert RefOk(first, mem, d, FrameOf(Pte(mem, d, v)), UserPage(v));
  }

  /** Releasing frames of a space leaves every other frame, and the user pages
      the space keeps, as they were. */
  ghost predicate KeptAfterRelease(mem: Mem, mem': Mem, own: Owner, own': Owner) {
    forall f :: 0 <= f < FRAMES && (f in own ==> f in own' && own[f].UserPage?) ==> mem'[f] == mem[f]
  }

  lemma KeptAtOnce(mem: Mem, own: Owner, free: seq<nat>)
    ensures Kept(mem, mem, own, free)
  {
  }

  /** The entry walkpgdir points at is the page's translation. */
  lemma EntryRead(first: nat, mem: Mem, d: nat, own: Owner, v: nat)
    requires SpaceOk(first, mem, d, own) && v < PAGES && Pdx(v) < ENTRIES && Present(mem[d][Pdx(v)])
    ensures FrameOf(mem[d][Pdx(v)]) < FRAMES && Pte(mem, d, v) == mem[FrameOf(mem[d][Pdx(v)])][Ptx(v)]
  {
    hide Present, FrameOf, Pdx, Ptx;
    SpaceFacts(first, mem, d, own, Pdx(v));
  }

  lemma AbsentTable(mem: Mem, d: nat, v: nat)
    requires d < FRAMES && v < PAGES && Present(Pte(mem, d, v))
    ensures Pdx(v) < ENTRIES && Present(mem[d][Pdx(v)])
  {
    hide Pdx, Ptx;
    PageParts(v);
    ZeroIsAbsent();
  }

  /** Where a run of pages has been mapped, and nothing else changed. */
  predicate MapAt(mem: Mem, mem': Mem, d: nat, u: nat, v: nat, f0: nat, perm: nat, m: nat)
    requires d < FRAMES && u < PAGES && f0 + m <= PAGES && perm < 4096
  {
    Pte(mem', d, u) == if v <= u < v + m then Entry(f0 + u - v, perm) else Pte(mem, d, u)
  }

  ghost predicate MappedTo(mem: Mem, mem': Mem, d: nat, v: nat, f0: nat, perm: nat, m: nat)
    requires d < FRAMES && f0 + m <= PAGES && perm < 4096
  {
    forall u :: 0 <= u < PAGES ==> MapAt(mem, mem', d, u, v, f0, perm, m)
  }

  lemma MappedNext(mem0: Mem, mem1: Mem, mem2: Mem, d: nat, v: nat, f0: nat, perm: nat, m: nat)
    requires d < FRAMES && f0 + m < PAGES && perm < 4096 && v + m < PAGES
    requires MappedTo(mem0, mem1, d, v, f0, perm, m)
    requires SameBut(mem1, mem2, d, v + m) && Pte(mem2, d, v + m) == Entry(f0 + m, perm)
    ensures MappedTo(mem0, mem2, d, v, f0, perm, m + 1)
  {
    hide Pte, Entry;
    var n := m + 1;
    forall u | 0 <= u < PAGES ensures MapAt(mem0, mem2, d, u, v, f0, perm, n) {
      assert MapAt(mem0, mem1, d, u, v, f0, perm, m);
      if u != v + m { assert Same(mem1, mem2, d, u); }
    }
  }

  lemma SameThenBut(mem0: Mem, mem1: Mem, mem2: Mem, d: nat, v: nat)
    requires d < FRAMES && SameAll(mem0, mem1, d) && SameBut(mem1, mem2, d, v)
    ensures SameBut(mem0, mem2, d, v)
  {
    hide Pte;
    forall u | 0 <= u < PAGES && u != v ensures Same(mem0, mem2, d, u) {
      assert Same(mem0, mem1, d, u) && Same(mem1, mem2, d, u);
    }
  }

  lemma SpaceFacts(first: nat, mem: Mem, d: nat, own: Owner, i: nat)
    requires SpaceOk(first, mem, d, own) && i < ENTRIES
    ensures d < FRAMES && d in own && own[d] == Directory
    ensures Present(mem[d][i]) ==> FrameOf(mem[d][i]) < FRAMES && FrameOf(mem[d][i]) in own && own[FrameOf(mem[d][i])] == Table(i)
  {
    hide Present, FrameOf;
    assert TableOk(mem, d, own, i);
    if Present(mem[d][i]) { assert RefOk(first, mem, d, FrameOf(mem[d][i]), Table(i)); }
  }

  // ------------------------------------------------------------------
  // The kernel's memory, and what vm.c and kalloc.c do to it.

  class Kernel {
    const end: Word      // the first address after the kernel
    const first: nat     // the first whole page after it
    const data: nat      // the page where the kernel's writable data begins
    var mem: Mem
    var freelist: Word
    ghost var free: seq<nat>

    ghost predicate Valid()
      reads this
    {
      && KERNBASE < end && (first - 1) * PGSIZE < end - KERNBASE <= first * PGSIZE && first < FRAMES
      && 0x8_0100 < data < 0x8_E000
      && FreeOk(first, mem, freelist, free)
    }

    /** The address space d, owning these frames, none of them free. */
    ghost predicate Space(d: nat, own: Owner)
      reads this
    {
      SpaceOk(first, mem, d, own) && forall f :: f in own ==> f !in free
    }

    constructor (end: Word, data: nat, mem: Mem)
      requires KERNBASE < end && end - KERNBASE <= (FRAMES - 1) * PGSIZE && 0x8_0100 < data < 0x8_E000
      ensures Valid() && free == [] && this.end == end && this.data == data && this.mem == mem
    {
      this.end, this.data, this.mem := end, data, mem;
      first := (end - KERNBASE + PGSIZE - 1) / PGSIZE;
      freelist, free := 0, [];
    }

    /** freerange, as kinit1 and kinit2 use it: every whole page of the range. */
    method Freerange(vstart: Word, vend: Word)
      requires Valid() && end <= vstart && vend - KERNBASE <= PHYSTOP && vstart <= vend
      requires forall f :: f in free ==> !(RoundUp(vstart - KERNBASE) <= f < (vend - KERNBASE) / PGSIZE)
      modifies this
      ensures Valid() && free == Descending(RoundUp(vstart - KERNBASE), (vend - KERNBASE) / PGSIZE) + old(free)
    {
      hide FreeOk, Junk, Kva;
      var p := (vstart + PGSIZE - 1) / PGSIZE * PGSIZE;
      ghost var lo, hi, f := RoundUp(vstart - KERNBASE), (vend - KERNBASE) / PGSIZE, RoundUp(vstart - KERNBASE);
      RangeStart(vstart, vend);
      while p + PGSIZE <= vend
        invariant Valid() && p == KERNBASE + f * PGSIZE && lo <= f && (f <= hi || f == lo)
        invariant free == Descending(lo, f) + old(free)
      {
        RangePage(f, vend);
        var _ := Kfree(p);
        p := p + PGSIZE;
        f := f + 1;
      }
      RangeEnd(f, lo, vend);
    }

    method Kalloc() returns (r: Option<nat>)
      requires Valid()
      modifies `freelist, `free
      ensures Valid()
      ensures old(free) == [] ==> r.None? && free == []
      ensures old(free) != [] ==> r == Some(old(free)[0]) && free == old(free)[1..] && first <= r.value < FRAMES && r.value !in free
    {
      hide Kva, FrameAt;
      if free != [] {
        PopKeepsFree(first, mem, freelist, free);
        KvaRoundTrip(free[0]);
      }
      if freelist == 0 {
        return None;
      }
      var f := FrameAt(freelist);
      freelist := mem[f][0];
      free := free[1..];
      return Some(f);
    }

    /** kfree, which panics on an address it cannot have given out. */
    method Kfree(v: Word) returns (panics: bool)
      requires Valid() && (v >= KERNBASE ==> FrameAt(v) !in free)
      modifies `mem, `freelist, `free
      ensures Valid()
      ensures panics <==> v % PGSIZE != 0 || v < KERNBASE || !(first <= FrameAt(v) < FRAMES)
      ensures panics ==> mem == old(mem) && free == old(free)
      ensures !panics ==> free == [FrameAt(v)] + old(free) && mem == old(mem)[FrameAt(v) := Junk(old(freelist))]
    {
      KfreeTest(v);
      if v % PGSIZE != 0 || v < end || v - KERNBASE >= PHYSTOP {
        return true;
      }
      var f := FrameAt(v);
      PushKeepsFree(first, mem, freelist, free, f, Junk(freelist));
      mem := mem[f := Junk(freelist)];
      freelist := v;
      free := [f] + free;
      return false;
    }

    lemma KfreeTest(v: Word)
      requires Valid()
      ensures (v % PGSIZE != 0 || v < end || v - KERNBASE >= PHYSTOP) <==>
              (v % PGSIZE != 0 || v < KERNBASE || !(first <= FrameAt(v) < FRAMES))
      ensures v % PGSIZE == 0 && v >= KERNBASE && FrameAt(v) < FRAMES ==> v == Kva(FrameAt(v))
    {
    }

    method Walkpgdir(d: nat, v: nat, alloc: bool, ghost own: Owner) returns (r: MaybeEntry, ghost own': Owner)
      requires Valid() && Space(d, own) && v < PAGES
      modifies this
      ensures Valid() && Space(d, own') && SameAll(old(mem), mem, d) && SameAccess(old(mem), mem, d)
      ensures Grown(own, old(free), own', free, 0, 0, 0) && Kept(old(mem), mem, own, old(free))
      ensures r.EntryAt? ==> Pdx(v) < ENTRIES && Present(mem[d][Pdx(v)]) && r == EntryAt(FrameOf(mem[d][Pdx(v)]), Ptx(v))
      ensures r.NoEntry? ==> Pdx(v) < ENTRIES && !Present(mem[d][Pdx(v)]) && (alloc ==> free == [])
      ensures !alloc || r.NoEntry? || Present(old(mem)[d][Pdx(v)]) ==>
                own' == own && mem == old(mem) && free == old(free)
      ensures alloc && !Present(old(mem)[d][Pdx(v)]) ==> if old(free) == [] then r.NoEntry? else r.EntryAt? && free == old(free)[1..]
      ensures r.EntryAt? ==> d < FRAMES && TablesAre(old(mem), mem, d, Pdx(v), Pdx(v) + 1)
    {
      hide Present, FrameOf, Pdx, Ptx, Entry, Kva, FreeOk, SpaceOk, Walk;
      PageParts(v);
      own' := own;
      SpaceFacts(first, mem, d, own, Pdx(v));
      var pde := mem[d][Pdx(v)];
      if Present(pde) {
        return EntryAt(FrameOf(pde), Ptx(v)), own;
      }
      if !alloc {
        return NoEntry, own;
      }
      var page := Kalloc();
      if page.None? {
        return NoEntry, own;
      }
      var t := page.value;
      EntryParts(t, PTE_W + PTE_U);
      var entry := Entry(t, PTE_W + PTE_U);
      ghost var was := mem;
      mem := mem[t := ZeroFrame()];
      mem := mem[d := mem[d][Pdx(v) := entry]];
      TableAdded(first, was, mem, d, own, Pdx(v), t, entry);
      own' := own[t := Table(Pdx(v))];
      SameEntriesSameAccess(first, was, mem, d, own, own');
      FreeUntouched(first, was, mem, freelist, free);
      return EntryAt(t, Ptx(v)), own';
    }

    /** *pte = pa | perm | PTE_P, through a page table that exists. */
    method StoreEntry(d: nat, v: nat, f: nat, perm: nat, pte: MaybeEntry, ghost own: Owner) returns (ghost own': Owner)
      requires Valid() && Space(d, own) && v < PAGES && f < PAGES && perm < 4096 && Pdx(v) < ENTRIES
      requires Present(mem[d][Pdx(v)]) && pte == EntryAt(FrameOf(mem[d][Pdx(v)]), Ptx(v)) && !Present(Pte(mem, d, v))
      requires v < USER ==> first <= f < FRAMES && f !in own && f !in free
      modifies `mem
      ensures Valid() && Space(d, own') && Kept(old(mem), mem, own, free)
      ensures Pte(mem, d, v) == Entry(f, perm) && SameBut(old(mem), mem, d, v) && mem[d] == old(mem)[d]
      ensures own' == if v < USER then own[f := UserPage(v)] else own
    {
      hide Present, FrameOf, Pdx, Ptx, Entry, Kva, FreeOk, SpaceOk, Vpn, Pte;
      PageParts(v);
      SpaceFacts(first, mem, d, own, Pdx(v));
      EntryWritten(first, mem, d, own, Pdx(v), Ptx(v), Entry(f, perm));
      EntryParts(f, perm);
      ghost var was := mem;
      mem := mem[pte.t := mem[pte.t][pte.j := Entry(f, perm)]];
      FreeUntouched(first, was, mem, freelist, free);
      if v < USER {
        PageAdded(first, was, mem, d, own, v, f);
        own' := own[f := UserPage(v)];
      } else {
        EntryRetained(first, was, mem, d, own, v);
        own' := own;
      }
    }

    /** One round of mappages. */
    method MapOne(d: nat, v: nat, f: nat, perm: nat, ghost own: Owner) returns (r: Outcome, ghost own': Owner)
      requires Valid() && Space(d, own) && v < PAGES && f < PAGES && perm < 4096
      requires v < USER ==> first <= f < FRAMES && f !in own && f !in free
      modifies this
      ensures Valid() && Space(d, own') && Kept(old(mem), mem, own, old(free))
      ensures r.Mapped? ==> Pte(mem, d, v) == Entry(f, perm) && SameBut(old(mem), mem, d, v)
      ensures r.Mapped? ==> !Present(Pte(old(mem), d, v)) && Grown(own, old(free), own', free, v, f, 1)
      ensures !r.Mapped? ==> mem == old(mem) && free == old(free) && own' == own
      ensures r.NoMemory? ==> free == [] && Pdx(v) < ENTRIES && !HasTable(mem, d, Pdx(v))
      ensures r.PanicRemap? ==> Present(Pte(mem, d, v))
      ensures r.Mapped? ==> Pdx(v) < ENTRIES && TablesAre(old(mem), mem, d, Pdx(v), Pdx(v) + 1)
      ensures r.Mapped? ==> |free| == |old(free)| - if HasTable(old(mem), d, Pdx(v)) then 0 else 1
    {
      hide Present, FrameOf, Pdx, Ptx, Entry, Kva, FreeOk, SpaceOk, Pte, Kept, Grown;
      SpaceFacts(first, mem, d, own, 0);
      KeptAtOnce(mem, own, free);
      var pte, own1 := Walkpgdir(d, v, true, own);
      if pte.NoEntry? {
        return NoMemory, own;
      }
      EntryRead(first, mem, d, own1, v);
      assert Same(old(mem), mem, d, v);
      if Present(mem[pte.t][pte.j]) {
        AbsentTable(old(mem), d, v);
        return PanicRemap, own;
      }
      ghost var free1, mem1 := free, mem;
      if v < USER { StillNew(own, old(free), own1, free, 0, 0, 0, f); }
      own' := StoreEntry(d, v, f, perm, pte, own1);
      SameThenBut(old(mem), mem1, mem, d, v);
      KeptTwice(old(mem), mem1, mem, own, old(free), own1, free1, 0, 0, 0);
      GrownByPage(own, old(free), own1, free1, v, f);
      TablesKept(old(mem), mem1, mem, d, Pdx(v), Pdx(v) + 1);
      r := Mapped;
    }

    method Mappages(d: nat, va: Word, size: nat, pa: nat, perm: nat, ghost own: Owner)
      returns (r: Outcome, ghost own': Owner, ghost m: nat)
      requires Valid() && Space(d, own) && perm < 4096
      requires size > 0 && va + size <= 0x1_0000_0000 && pa % PGSIZE == 0 && pa / PGSIZE + Span(va, size) <= PAGES
      requires forall f :: pa / PGSIZE <= f < pa / PGSIZE + Span(va, size) && va / PGSIZE + f - pa / PGSIZE < USER ==>
                 IsNew(own, f)
      modifies this
      ensures Valid() && Space(d, own') && m <= Span(va, size) && (r.Mapped? <==> m == Span(va, size))
      ensures MappedTo(old(mem), mem, d, va / PGSIZE, pa / PGSIZE, perm, m)
      ensures Grown(own, old(free), own', free, va / PGSIZE, pa / PGSIZE, m) && Kept(old(mem), mem, own, old(free))
      ensures r.NoMemory? ==> free == [] && NewTable(old(mem), d, va / PGSIZE, va / PGSIZE + m)
      ensures r.PanicRemap? ==> va / PGSIZE + m < PAGES && Present(Pte(old(mem), d, va / PGSIZE + m))
      ensures va / PGSIZE + m <= PAGES && |free| + Needs(old(mem), d, va / PGSIZE, va / PGSIZE + m) == |old(free)|
      ensures TablesAre(old(mem), mem, d, Pdx(va / PGSIZE), TopTable(va / PGSIZE, m))
    {
      hide Present, FrameOf, Pdx, Ptx, Entry, Kva, FreeOk, SpaceOk, Pte, Kept, Grown, MappedTo, TablesAre, NewTable, Needs;
      SpaceFacts(first, mem, d, own, 0);
      own', m := own, 0;
      var a, last, f := va / PGSIZE, (va + size - 1) / PGSIZE, pa / PGSIZE;
      ghost var v0, f0 := a, f;
      MappedNothing(mem, d, v0, f0, perm, own, free);
      NeedsNothing(mem, d, v0);
      while true
        invariant v0 <= a <= last && a == v0 + m && f == f0 + m && Valid() && Space(d, own')
        invariant MappedTo(old(mem), mem, d, v0, f0, perm, m)
        invariant Grown(own, old(free), own', free, v0, f0, m) && Kept(old(mem), mem, own, old(free))
        invariant |free| + Needs(old(mem), d, v0, a) == |old(free)| && TablesAre(old(mem), mem, d, Pdx(v0), TopTable(v0, m))
        decreases last - a
      {
        if a < USER {
          assert old(IsNew(own, f));
          StillNew(own, old(free), own', free, v0, f0, m, f);
        }
        ghost var mem1, own1, free1 := mem, own', free;
        TableNeeded(old(mem), mem, d, v0, m);
        NeedsNext(old(mem), d, v0, a);
        r, own' := MapOne(d, a, f, perm, own1);
        if !r.Mapped? {
          MappedBefore(old(mem), mem, d, v0, f0, perm, m);
          return;
        }
        MappedNext(old(mem), mem1, mem, d, v0, f0, perm, m);
        KeptTwice(old(mem), mem1, mem, own, old(free), own1, free1, v0, f0, m);
        GrownTwice(own, old(free), own1, free1, own', free, v0, f0, m, 1);
        TablesNext(old(mem), mem1, mem, d, v0, m);
        m := m + 1;
        if a == last {
          break;
        }
        a := a + 1;
        f := f + 1;
      }
    }

    /** One round of setupkvm: an entry of kmap. Nothing is ever mapped twice. */
    method MapKernel(d: nat, k: nat, ghost own: Owner, ghost free0: seq<nat>) returns (done: bool, ghost own': Owner)
      requires Valid() && Space(d, own) && k < 4 && d < FRAMES && KernelMap(mem, d, data, Bound(data, k))
      requires FromFree(own, {}, free0, free) && Suffix(free0, free) && TablesUpTo(mem, d, data, k)
      modifies this
      ensures Valid() && Space(d, own') && FromFree(own', {}, free0, free) && Suffix(old(free), free)
      ensures OnlyFree(old(mem), mem, free0)
      ensures if done then KernelMap(mem, d, data, Bound(data, k + 1)) else free == []
      ensures var n := KernelTables(data, k + 1) - KernelTables(data, k);
              if done then TablesUpTo(mem, d, data, k + 1) && |free| == |old(free)| - n else |old(free)| < n
    {
      hide Present, FrameOf, Entry, Kva, FreeOk, SpaceOk, Pte, Kept, Grown, MappedTo, KernelMap, KmapAt, Suffix, FromFree,
           TablesUpTo, TablesAre, Needs, NewTable, KernelTables, Pdx;
      var e := KmapAt(data, k);
      KmapFits(data, k);
      var r;
      ghost var m;
      r, own', m := Mappages(d, e.virt, (e.physEnd - e.physStart) % 0x1_0000_0000, e.physStart, e.perm, own);
      KernelGrowth(first, old(mem), mem, d, own, own', free0, old(free), free, e.virt / PGSIZE, e.physStart / PGSIZE, m);
      KernelMapNext(old(mem), mem, d, data, k, m);
      KernelTablesNext(old(mem), mem, d, data, k, m);
      done := r.Mapped?;
      if !done {
        NeedsMore(old(mem), d, e.virt / PGSIZE, m, Span(e.virt, (e.physEnd - e.physStart) % 0x1_0000_0000));
      }
    }

    /** setupkvm: null exactly when there are fewer than 65 free frames, and then
        they are lost. */
    method Setupkvm() returns (r: Option<nat>, ghost own: Owner)
      requires Valid()
      modifies this
      ensures Valid() && Suffix(old(free), free) && OnlyFree(old(mem), mem, old(free))
      ensures if |old(free)| < KERNEL_FRAMES then r.None? && free == [] else r.Some? && |free| == |old(free)| - KERNEL_FRAMES
      ensures r.Some? ==> r.value < FRAMES && TablesUpTo(mem, r.value, data, 4)
      ensures r.Some? ==> r.value < FRAMES && forall la: Word :: Walk(mem, r.value, la) == KernelAccess(data, la)
      ensures r.Some? ==> Space(r.value, own) && FromFree(own, {}, old(free), free) && r.value < FRAMES && KernelMap(mem, r.value, data, PAGES)
    {
      hide Present, FrameOf, Entry, Kva, FreeOk, SpaceOk, Pte, KernelMap, FromFree, TablesUpTo, KernelTop, Walk, KernelAccess;
      KernelTotal(data);
      own := map[];
      var page := Kalloc();
      if page.None? {
        return None, own;
      }
      var d := page.value;
      ghost var was := mem;
      mem := mem[d := ZeroFrame()];
      own := map[d := Directory];
      FirstFrame(was, mem, old(free), d);
      FreeUntouched(first, was, mem, freelist, free);
      EmptySpace(first, mem, d, data);
      var k := 0;
      while k < 4
        invariant 0 <= k <= 4 && Valid() && Space(d, own) && Suffix(old(free), free) && FromFree(own, {}, old(free), free)
        invariant OnlyFree(old(mem), mem, old(free)) && d < FRAMES && KernelMap(mem, d, data, Bound(data, k))
        invariant TablesUpTo(mem, d, data, k) && |free| + 1 + KernelTables(data, k) == |old(free)|
      {
        KernelTotal(data);
        ghost var mem1, free1 := mem, free;
        var done;
        done, own := MapKernel(d, k, own, old(free));
        SuffixTwice(old(free), free1, free);
        OnlyFreeTwice(old(mem), mem1, mem, old(free));
        if !done {
          return None, own;
        }
        k := k + 1;
      }
      KernelWalk(first, mem, d, own, data);
      return Some(d), own;
    }

    /** The body of deallocuvm's loop for a page that is present. */
    method ReleasePage(d: nat, v: nat, pte: MaybeEntry, ghost own: Owner) returns (ghost own': Owner)
      requires Valid() && Space(d, own) && v < USER && Pdx(v) < ENTRIES
      requires Present(mem[d][Pdx(v)]) && pte == EntryAt(FrameOf(mem[d][Pdx(v)]), Ptx(v)) && Present(Pte(mem, d, v))
      modifies this
      ensures Valid() && Space(d, own') && mem[d] == old(mem)[d]
      ensures Pte(mem, d, v) == 0 && SameBut(old(mem), mem, d, v) && KeptAfterRelease(old(mem), mem, own, own')
      ensures FrameOf(Pte(old(mem), d, v)) in own && own' == own - {FrameOf(Pte(old(mem), d, v))}
      ensures own[FrameOf(Pte(old(mem), d, v))] == UserPage(v) && free == [FrameOf(Pte(old(mem), d, v))] + old(free)
    {
      hide Present, FrameOf, Pdx, Ptx, Entry, Kva, FreeOk, SpaceOk, Vpn, Pte, Junk, FrameAt;
      PageParts(v);
      SpaceFacts(first, mem, d, own, Pdx(v));
      EntryRead(first, mem, d, own, v);
      var f := FrameOf(mem[pte.t][pte.j]);
      PageFacts(first, mem, d, own, v);
      KvaRoundTrip(f);
      var _ := Kfree(Kva(f));
      ghost var was := mem;
      OwnedManaged(first, old(mem), d, own);
      Untouched(first, old(mem), mem, d, own);
      assert Same(old(mem), mem, d, v);
      EntryWritten(first, mem, d, own, Pdx(v), Ptx(v), 0);
      mem := mem[pte.t := mem[pte.t][pte.j := 0]];
      ZeroIsAbsent();
      PageRemoved(first, was, mem, d, own, v);
      own' := own - {f};
      SameThenBut(old(mem), was, mem, d, v);
      FreeUntouched(first, was, mem, freelist, free);
    }

    /** deallocuvm. A page of the range stays mapped exactly when it is skipped. */
    method Deallocuvm(d: nat, oldsz: nat, newsz: nat, ghost own: Owner)
      returns (r: nat, ghost own': Owner, ghost released: seq<nat>)
      requires Valid() && Space(d, own) && oldsz <= KERNBASE
      modifies this
      ensures Valid() && Space(d, own') && mem[d] == old(mem)[d]
      ensures r == if newsz >= oldsz then oldsz else newsz
      ensures Cleared(old(mem), mem, d, RoundUp(newsz), if newsz >= oldsz then RoundUp(newsz) else RoundUp(oldsz))
      ensures free == released + old(free) && Released(own, own', released) && KeptAfterRelease(old(mem), mem, own, own')
    {
      hide Present, FrameOf, Pdx, Ptx, Kva, FreeOk, SpaceOk, Pte, Cleared, Released, KeptAfterRelease;
      own', released := own, [];
      SpaceFacts(first, mem, d, own, 0);
      ReleasedNothing(mem, d, own, RoundUp(newsz));
      if newsz >= oldsz {
        return oldsz, own', released;
      }
      var a := RoundUp(newsz);
      ghost var a0, stop := a, RoundUp(oldsz);
      while a * PGSIZE < oldsz
        invariant a0 <= a && Valid() && Space(d, own') && mem[d] == old(mem)[d] && Phase(old(mem), d, a0, a)
        invariant Cleared(old(mem), mem, d, a0, Min(a, stop))
        invariant free == released + old(free) && Released(own, own', released)
        invariant KeptAfterRelease(old(mem), mem, own, own')
        decreases stop - a
      {
        PageParts(a);
        var pte, _ := Walkpgdir(d, a, false, own');
        if pte.NoEntry? {
          JumpTable(old(mem), mem, d, a0, a, stop);
          a := a + (ENTRIES - 1);
        } else {
          EntryRead(first, mem, d, own', a);
          ghost var mem1, own1 := mem, own';
          if Present(mem[pte.t][pte.j]) {
            own' := ReleasePage(d, a, pte, own1);
            ReleasedNext(old(mem), mem1, mem, own, own1, own', released, FrameOf(Pte(mem1, d, a)));
            released := [FrameOf(Pte(mem1, d, a))] + released;
          }
          NextPage(old(mem), mem1, mem, d, a0, a);
        }
        a := a + 1;
      }
      return newsz, own', released;
    }

    /** The loop of freevm over the directory. */
    method FreeTables(d: nat, ghost own: Owner) returns (ghost tables: seq<nat>)
      requires Valid() && Space(d, own)
      modifies this
      ensures Valid() && free == tables + old(free) && forall f :: f in tables <==> f in own && own[f].Table?
      ensures forall f :: 0 <= f < FRAMES && f !in own ==> mem[f] == old(mem)[f]
    {
      hide Present, FrameOf, Kva, FreeOk, SpaceOk, Junk, FrameAt;
      AllTables(first, mem, d, own);
      tables := [];
      var i := 0;
      while i < ENTRIES
        invariant 0 <= i <= ENTRIES && Valid() && mem[d] == old(mem)[d] && free == tables + old(free)
        invariant forall f :: f in tables <==> f in own && own[f].Table? && own[f].i < i
        invariant forall f :: 0 <= f < FRAMES && f !in own ==> mem[f] == old(mem)[f]
      {
        TableFrame(first, old(mem), d, own, i);
        if Present(mem[d][i]) {
          var f := FrameOf(mem[d][i]);
          KvaRoundTrip(f);
          var _ := Kfree(Kva(f));
          tables := [f] + tables;
        }
        i := i + 1;
      }
    }

    /** freevm: every frame of the space goes back to the free list, once. */
    method Freevm(pgdir: Option<nat>, ghost own: Owner) returns (panics: bool, ghost released: seq<nat>)
      requires Valid() && (pgdir.Some? ==> Space(pgdir.value, own))
      modifies this
      ensures Valid() && (panics <==> pgdir.None?)
      ensures panics ==> mem == old(mem) && free == old(free)
      ensures !panics ==> free == released + old(free) && forall f :: f in released <==> f in own
      ensures forall f :: 0 <= f < FRAMES && f !in own ==> mem[f] == old(mem)[f]
    {
      hide Present, FrameOf, Pdx, Ptx, Kva, FreeOk, SpaceOk, Pte, Cleared, Skipped, Junk, FrameAt;
      released := [];
      if pgdir.None? {
        return true, [];
      }
      var d := pgdir.value;
      SpaceFacts(first, mem, d, own, 0);
      var _, own1, pages := Deallocuvm(d, KERNBASE, 0, own);
      NoUserPages(first, old(mem), mem, d, own1);
      AllTables(first, mem, d, own1);
      ghost var tables := FreeTables(d, own1);
      KvaRoundTrip(d);
      var _ := Kfree(Kva(d));
      released := [d] + tables + pages;
      return false, released;
    }

    method Clearpteu(d: nat, v: nat, ghost own: Owner) returns (panics: bool)
      requires Valid() && Space(d, own) && v < PAGES
      modifies this
      ensures Valid() && Space(d, own) && free == old(free) && Kept(old(mem), mem, own, free)
      ensures panics <==> Pdx(v) < ENTRIES && !Present(old(mem)[d][Pdx(v)])
      ensures forall la: Word :: Walk(mem, d, la) == WithoutUser(Walk(old(mem), d, la), la / 4096 == v)
      ensures Pte(mem, d, v) == ClearU(Pte(old(mem), d, v)) && SameBut(old(mem), mem, d, v)
    {
      hide Present, FrameOf, Pdx, Ptx, Kva, FreeOk, SpaceOk, Vpn, ClearU, Walk;
      SpaceFacts(first, mem, d, own, 0);
      ClearUParts(0);
      PageParts(v);
      var pte, _ := Walkpgdir(d, v, false, own);
      if pte.NoEntry? {
        ClearedWalk(first, mem, mem, d, own, v);
        return true;
      }
      SpaceFacts(first, mem, d, own, Pdx(v));
      EntryRead(first, mem, d, own, v);
      var w := ClearU(mem[pte.t][pte.j]);
      ClearUParts(mem[pte.t][pte.j]);
      EntryWritten(first, mem, d, own, Pdx(v), Ptx(v), w);
      ghost var was := mem;
      mem := mem[pte.t := mem[pte.t][pte.j := w]];
      EntryRetained(first, was, mem, d, own, v);
      FreeUntouched(first, was, mem, freelist, free);
      ClearedWalk(first, was, mem, d, own, v);
      return false;
    }

    /** One round of copyuvm: page i of the parent d0 copied into the child d. */
    method CopyPage(d0: nat, d: nat, i: nat, ghost own0: Owner, ghost own: Owner, ghost mem0: Mem, ghost free0: seq<nat>,
                    ghost memC: Mem, ghost before: nat)
      returns (r: CopyStep, ghost own': Owner, ghost lost: set<nat>)
      requires Valid() && Space(d, own) && i < USER && Building(mem0, mem, own0, own, {}, free0, free)
      requires d < FRAMES && d0 < FRAMES && SpaceOk(first, mem0, d0, own0) && Copied(mem0, mem, d0, d, data, i)
      requires Tally(memC, mem, d, 0, i, {}, before, |free|)
      modifies this
      ensures Valid() && Space(d, own') && Building(mem0, mem, own0, own', lost, free0, free) && |lost| <= 1
      ensures !r.OutOfMemory? ==> lost == {}
      ensures r.PageCopied? ==> Present(Pte(mem0, d0, i)) && Copied(mem0, mem, d0, d, data, i + 1)
      ensures r.PageMissing? ==> !Present(Pte(mem0, d0, i))
      ensures r.PageCopied? ==> Tally(memC, mem, d, 0, i + 1, {}, before, |free|)
      ensures r.OutOfMemory? ==> before < Cost(memC, d, 0, i + 1)
    {
      hide Present, FrameOf, FlagsOf, Pdx, Ptx, Kva, FreeOk, SpaceOk, Pte, Copied, Kept, Grown, MappedTo, Entry, Building,
           Tally, Cost, Needs, NewTable, TablesAre;
      own', lost := own, {};
      ParentKept(first, mem0, mem, d0, own0, own, {}, free0, free);
      assert Same(mem0, mem, d0, i);
      PageParts(i);
      var pte, _ := Walkpgdir(d0, i, false, own0);
      if pte.NoEntry? {
        NoTableNoPage(mem, d0, i);
        return PageMissing, own, {};
      }
      EntryRead(first, mem, d0, own0, i);
      var entry := mem[pte.t][pte.j];
      if !Present(entry) {
        return PageMissing, own, {};
      }
      PageFacts(first, mem, d0, own0, i);
      SpaceFacts(first, mem, d, own, 0);
      ghost var free1 := free;
      var page := Kalloc();
      if page.None? {
        TallyShort(memC, mem, d, i, before);
        return OutOfMemory, own, {};
      }
      var g := page.value;
      ghost var was := mem;
      mem := mem[g := mem[FrameOf(entry)]];
      FrameTaken(first, mem0, was, mem, d, own0, own, free0, free1, g);
      FreeUntouched(first, was, mem, freelist, free);
      ghost var mem1, free2 := mem, free;
      OnePage(i, g);
      var done;
      ghost var m;
      done, own', m := Mappages(d, i * PGSIZE, PGSIZE, g * PGSIZE, FlagsOf(entry), own);
      if done.Mapped? { PageMapped(first, mem1, mem, d, own', i, g, FlagsOf(entry)); }
      BuiltOn(first, mem0, mem1, mem, d, own0, own, own', free0, free2, free, g, i, m);
      NotYetCopied(mem0, was, mem1, d0, d, data, i);
      TallyNext(memC, was, mem1, mem, d, 0, i, g, m, before, |free1|, |free|);
      if !done.Mapped? {
        TallyLost(memC, mem, d, i + 1, g, before, |free|);
        return OutOfMemory, own', {g};
      }
      CopiedNext(first, mem0, was, mem1, mem, d0, d, data, own, free2, i, g);
      return PageCopied, own', {};
    }

    /** copyuvm. The child owns exactly the frames that left the free list. When
        the parent has all its pages, it succeeds if and only if there are enough
        frames: 65 for the kernel's half, one for every page and one for every
        page table.  On failure they are all back, but for what lost names. */
    method Copyuvm(d0: nat, sz: nat, ghost own0: Owner) returns (r: CopyResult, ghost own: Owner, ghost lost: set<nat>)
      requires Valid() && Space(d0, own0) && sz <= KERNBASE
      modifies this
      ensures Valid() && Space(d0, own0) && forall f :: f in own0 ==> f < FRAMES && mem[f] == old(mem)[f]
      ensures r.Copy? ==> r.d < FRAMES && d0 < FRAMES && Space(r.d, own) && FromFree(own, {}, old(free), free)
      ensures r.Copy? ==> Copied(old(mem), mem, d0, r.d, data, RoundUp(sz)) && forall f :: f in own ==> f !in own0
      ensures r.Copy? ==> forall la: Word ::
                if la / 4096 < RoundUp(sz) then CopiedAccess(old(mem), mem, d0, r.d, la) else Walk(mem, r.d, la) == KernelAccess(data, la)
      ensures r.Copy? ==> |free| + CopyFrames(RoundUp(sz)) == |old(free)|
      ensures r.CopyFailed? ==> |old(free)| < CopyFrames(RoundUp(sz))
      ensures r.CopyFailed? ==> (|lost| <= 1 || free == []) && forall f :: f in old(free) <==> f in free || f in lost
      ensures r.CopyPanics? ==> exists v :: 0 <= v < RoundUp(sz) && d0 < FRAMES && !Present(Pte(old(mem), d0, v))
    {
      hide Present, FrameOf, Pdx, Ptx, Kva, FreeOk, SpaceOk, Pte, Copied, KernelMap, Building, FromFree, Tally, Cost, TablesUpTo,
           UserTables, Walk, KernelAccess, CopiedAccess;
      lost := {};
      SpaceFacts(first, mem, d0, own0, 0);
      var page;
      page, own := Setupkvm();
      if page.None? {
        lost := set f | f in old(free);
        SetupLost(first, old(mem), mem, d0, own0, old(free), free);
        return CopyFailed, own, lost;
      }
      var d := page.value;
      CopyStarts(old(mem), mem, d0, d, data, own0, own, old(free), free);
      ghost var memC, before, n := mem, |free|, RoundUp(sz);
      TallyStarts(mem, d, 0, before);
      CopyCost(memC, d, data, n);
      var i := 0;
      while i * PGSIZE < sz
        invariant 0 <= i <= n && Valid() && Space(d, own) && d < FRAMES && lost == {}
        invariant Building(old(mem), mem, own0, own, {}, old(free), free) && Copied(old(mem), mem, d0, d, data, i)
        invariant Tally(memC, mem, d, 0, i, {}, before, |free|)
      {
        var step;
        step, own, lost := CopyPage(d0, d, i, own0, own, old(mem), old(free), memC, before);
        ParentKept(first, old(mem), mem, d0, own0, own, lost, old(free), free);
        if step.PageMissing? {
          return CopyPanics, own, lost;
        }
        if step.OutOfMemory? {
          ghost var mem1, free1 := mem, free;
          var _, released := Freevm(Some(d), own);
          CopyUndone(first, old(mem), mem1, mem, d0, own0, own, lost, old(free), free1, released);
          CostGrows(memC, d, 0, i + 1, n);
          return CopyFailed, own, lost;
        }
        i := i + 1;
      }
      TallyDone(memC, mem, d, n, before, |free|);
      ParentKept(first, old(mem), mem, d0, own0, own, {}, old(free), free);
      ChildApart(old(mem), mem, own0, own, old(free), free);
      CopiedWalk(first, old(mem), mem, d0, d, own0, own, data, n);
      return Copy(d), own, {};
    }

    /** One round of allocuvm. The result of mappages is not looked at, so a
        page for which no page table could be had is lost. */
    method AllocPage(d: nat, a: nat, ghost own0: Owner, ghost own: Owner, ghost mem0: Mem, ghost free0: seq<nat>, ghost a0: nat,
                     ghost lost0: set<nat>)
      returns (ok: bool, ghost own': Owner, ghost lost: set<nat>)
      requires Valid() && Space(d, own) && a0 <= a < USER && d < FRAMES && !Present(Pte(mem0, d, a))
      requires Extended(mem0, mem, d, a0, a, lost0) && Conserved(own0, own, lost0, free0, free)
      requires Kept(mem0, mem, own0, free0) && |lost0| <= 1 && Tally(mem0, mem, d, a0, a, lost0, |free0|, |free|)
      modifies this
      ensures Valid() && Space(d, own') && Conserved(own0, own', lost, free0, free) && Kept(mem0, mem, own0, free0)
      ensures if ok then Extended(mem0, mem, d, a0, a + 1, lost) else Extended(mem0, mem, d, a0, a, lost)
      ensures |lost| <= 1 && (!ok ==> free == [])
      ensures Tally(mem0, mem, d, a0, if ok then a + 1 else a, lost, |free0|, |free|)
    {
      hide Present, FrameOf, FlagsOf, Pdx, Ptx, Kva, FreeOk, SpaceOk, Pte, Extended, Conserved, Kept, Grown, MappedTo, Entry;
      own', lost := own, lost0;
      SpaceFacts(first, mem, d, own, 0);
      ghost var free1 := free;
      var page := Kalloc();
      if page.None? {
        return false, own, lost0;
      }
      var g := page.value;
      ghost var mem1 := mem;
      mem := mem[g := ZeroFrame()];
      ghost var mem2, free2 := mem, free;
      PageTaken(first, mem0, mem1, mem2, d, own0, own, free0, free1, g);
      FreeUntouched(first, mem1, mem2, freelist, free);
      OnePage(a, g);
      var done;
      ghost var m;
      done, own', m := Mappages(d, a * PGSIZE, PGSIZE, g * PGSIZE, PTE_W + PTE_U, own);
      PageNotThere(mem0, mem1, mem2, d, a0, a);
      if done.Mapped? { PageMapped(first, mem2, mem, d, own', a, g, PTE_W + PTE_U); }
      ConservedNext(mem0, mem2, mem, own0, own, own', free0, free2, free, g, a, m);
      lost := if m == 1 then {} else {g};
      ExtendedNext(first, mem0, mem1, mem2, mem, d, a0, a, own, free2, g, m);
      TallyNext(mem0, mem1, mem2, mem, d, a0, a, g, m, |free0|, |free1|, |free|);
      return true, own', lost;
    }

    /** allocuvm, for a process with no page above its size.  Before the call it is
        settled what will happen.  With a frame for every page and every page
        table, all pages up to newsz are mapped and zero.  With one frame less,
        that for the last page's table, newsz is returned with that page missing.
        With less than that, 0 is returned and the translation is what it was. */
    method Allocuvm(d: nat, oldsz: nat, newsz: nat, ghost own: Owner)
      returns (r: nat, ghost own': Owner, ghost lost: set<nat>)
      requires Valid() && Space(d, own) && d < FRAMES && oldsz <= KERNBASE
      requires forall v :: RoundUp(oldsz) <= v < USER ==> !Present(Pte(mem, d, v))
      modifies this
      ensures Valid() && Space(d, own') && Kept(old(mem), mem, own, old(free)) && Conserved(own, own', lost, old(free), free)
      ensures newsz >= KERNBASE ==> r == 0 && mem == old(mem)
      ensures newsz < oldsz && newsz < KERNBASE ==> r == oldsz && mem == old(mem)
      ensures oldsz <= newsz < KERNBASE && r == newsz ==> Extended(old(mem), mem, d, RoundUp(oldsz), RoundUp(newsz), lost)
      ensures oldsz <= newsz < KERNBASE && r == newsz ==>
                forall la: Word :: GrownAccess(old(mem), mem, d, RoundUp(oldsz), RoundUp(newsz), lost, la)
      ensures oldsz <= newsz < KERNBASE && r != newsz ==> r == 0 && Restored(old(mem), mem, d, RoundUp(oldsz))
      ensures oldsz <= newsz < KERNBASE ==> RoundUp(oldsz) <= RoundUp(newsz)
      ensures oldsz <= newsz < KERNBASE ==>
                (r == newsz && lost == {} <==> |old(free)| >= Cost(old(mem), d, RoundUp(oldsz), RoundUp(newsz)))
      ensures oldsz <= newsz < KERNBASE ==>
                (r == newsz && lost != {} <==> LastTableMissing(old(mem), d, RoundUp(oldsz), RoundUp(newsz), |old(free)|))
      ensures oldsz <= newsz < KERNBASE && r == newsz && lost == {} ==>
                TablesAre(old(mem), mem, d, Pdx(RoundUp(oldsz)), TopTable(RoundUp(oldsz), RoundUp(newsz) - RoundUp(oldsz)))
      ensures |lost| <= 1
    {
      hide Present, FrameOf, FlagsOf, Pdx, Ptx, Kva, FreeOk, SpaceOk, Pte, Extended, Conserved, Kept, Cleared, Released,
           KeptAfterRelease, Restored, Tally, Cost, NewTable, LastTableMissing, Walk, GrownAccess;
      own', lost := own, {};
      AllocStarts(mem, d, RoundUp(oldsz), own, free);
      if newsz >= KERNBASE {
        return 0, own, {};
      }
      if newsz < oldsz {
        return oldsz, own, {};
      }
      var a := RoundUp(oldsz);
      ghost var a0, stop := a, RoundUp(newsz);
      TallyStarts(mem, d, a0, |free|);
      while a * PGSIZE < newsz
        invariant a0 <= a <= stop && Valid() && Space(d, own') && Conserved(own, own', lost, old(free), free) && |lost| <= 1
        invariant Kept(old(mem), mem, own, old(free)) && Extended(old(mem), mem, d, a0, a, lost)
        invariant Tally(old(mem), mem, d, a0, a, lost, |old(free)|, |free|)
      {
        var ok;
        ok, own', lost := AllocPage(d, a, own, own', old(mem), old(free), a0, lost);
        if !ok {
          ghost var mem1, own1, free1 := mem, own', free;
          TallySettles(old(mem), mem, d, a0, a, stop, lost, |old(free)|, |free|);
          var _, own2, released := Deallocuvm(d, newsz, oldsz, own1);
          AllocUndone(first, old(mem), mem1, mem, d, a0, a, RoundUp(newsz), own, own1, own2, lost, old(free), free1, released);
          return 0, own2, lost;
        }
        a := a + 1;
      }
      TallySettles(old(mem), mem, d, a0, a, stop, lost, |old(free)|, |free|);
      ExtendedWalk(first, old(mem), mem, d, own, own', a0, a, lost);
      return newsz, own', lost;
    }

    /** A managed frame in nobody's use as far as this space and the free list go. */
    ghost predicate IsNew(own: Owner, f: nat)
      reads this
    {
      first <= f < FRAMES && f !in own && f !in free
    }
  }

  // ------------------------------------------------------------------
  // Calls in which the code does less than it says.

  /** A kernel just started, with n free pages, and one address space in it. */
  method StartWith(n: nat) returns (k: Kernel, d: nat, ghost own: Owner)
    requires KERNEL_FRAMES <= n < 100
    ensures k.Valid() && k.Space(d, own) && d < FRAMES && |k.free| == n - KERNEL_FRAMES
    ensures TablesUpTo(k.mem, d, k.data, 4) && forall v :: 0 <= v < USER ==> Pte(k.mem, d, v) == 0
    ensures fresh(k) && 0 < k.data
  {
    hide FreeOk, SpaceOk, TablesUpTo, FromFree, Pte;
    var end: Word := KERNBASE + 0x11_0000;
    k := new Kernel(end, 0x8_0108, ZeroMemory());
    k.Freerange(end, end + n * PGSIZE);
    var page;
    page, own := k.Setupkvm();
    d := page.value;
    forall v | 0 <= v < USER ensures Pte(k.mem, d, v) == 0 { assert KernelAt(k.mem, d, k.data, v, PAGES); }
  }

  lemma FirstPages(mem: Mem, d: nat, data: nat)
    requires d < FRAMES && 0 < data && TablesUpTo(mem, d, data, 4)
    ensures !HasTable(mem, d, 0) && Cost(mem, d, 0, 1) == 2 && NewTable(mem, d, 0, 0)
    ensures Cost(mem, d, ENTRIES, ENTRIES + 1) == 2 && Pdx(ENTRIES) == 1 && Ptx(ENTRIES) == 0 && Pdx(1) == 0 && Ptx(1) == 1
  {
    hide HasTable;
    assert !HasTable(mem, d, 0) && !HasTable(mem, d, 1);
    NeedsNext(mem, d, 0, 0);
    NeedsNext(mem, d, ENTRIES, ENTRIES);
  }

  /** allocuvm grants one byte, with one page free and no page table, and the page
      is not there. */
  method AllocuvmLosesPage() returns (k: Kernel, d: nat, r: nat)
    ensures fresh(k) && k.Valid() && d < FRAMES && r == 1 && !Present(Pte(k.mem, d, 0))
  {
    hide FreeOk, SpaceOk, TablesUpTo, Pte, Cost, NewTable, HasTable, Present;
    ghost var own;
    k, d, own := StartWith(KERNEL_FRAMES + 1);
    ZeroIsAbsent();
    FirstPages(k.mem, d, k.data);
    ghost var was := k.mem;
    ghost var lost;
    r, own, lost := k.Allocuvm(d, 0, 1, own);
    assert ExtendedAt(was, k.mem, d, 0, 1, lost, 0);
  }

  /** deallocuvm is asked to shrink a space to one byte, and a page beyond it stays. */
  method DeallocuvmSkips() returns (k: Kernel, d: nat, r: nat)
    ensures fresh(k) && k.Valid() && d < FRAMES && r == 1 && Present(Pte(k.mem, d, ENTRIES))
  {
    hide FreeOk, SpaceOk, TablesUpTo, Pte, Cost, NewTable, HasTable, Present, Pdx, Ptx, Kept, Conserved, Released, KeptAfterRelease;
    ghost var own, lost;
    k, d, own := StartWith(KERNEL_FRAMES + 2);
    ZeroIsAbsent();
    FirstPages(k.mem, d, k.data);
    ghost var mem0 := k.mem;
    var grown;
    grown, own, lost := k.Allocuvm(d, ENTRIES * PGSIZE, ENTRIES * PGSIZE + 1, own);
    assert ExtendedAt(mem0, k.mem, d, ENTRIES, ENTRIES + 1, lost, ENTRIES);
    ghost var mem1, released := k.mem, [];
    r, own, released := k.Deallocuvm(d, grown, 1, own);
    StaysBehind(mem0, mem1, d);
    assert ClearedAt(mem1, k.mem, d, 1, ENTRIES + 1, ENTRIES);
  }

  lemma StaysBehind(mem0: Mem, mem1: Mem, d: nat)
    requires d < FRAMES && !HasTable(mem0, d, 0) && TablesAre(mem0, mem1, d, Pdx(ENTRIES), TopTable(ENTRIES, 1))
    ensures Skipped(mem1, d, 1, ENTRIES)
  {
    assert Pdx(ENTRIES) == 1;
    assert !HasTable(mem1, d, 0);
  }
}
