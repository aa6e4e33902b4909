/** Two-level page tables in physical memory (vm.c, mmu.h; section 4.3 of
    volume 3A of the Intel 64 and IA-32 Software Developer's Manual), and who
    owns which page frame. A frame is named by its number, its physical
    address divided by 4096; a virtual page likewise. */
module PageTable {
  import opened Types

  const ENTRIES := 1024
  const FRAMES := 0xE000     // PHYSTOP / PGSIZE
  const USER := 0x8_0000     // KERNBASE / PGSIZE
  const PAGES := 0x10_0000   // virtual pages in all
  const PTE_W := 2
  const PTE_U := 4

  type Frame = s: seq<Word> | |s| == 1024 witness seq(1024, i => 0)
  type Mem = m: seq<Frame> | |m| == 0xE000 witness ZeroMemory()

  /** A page cleared by memset. */
  function ZeroFrame(): Frame {
    seq(1024, i => 0)
  }

  function ZeroMemory(): seq<Frame> {
    var zero: Frame := ZeroFrame();
    seq<Frame>(0xE000, k => zero)
  }

  predicate Present(w: Word) {
    w % 2 == 1
  }

  /** The bits of an entry that let it be written, and be used in user mode. */
  predicate Writable(w: Word) {
    w / 2 % 2 == 1
  }

  predicate ForUser(w: Word) {
    w / 4 % 2 == 1
  }

  /** PTE_ADDR, as a frame number. */
  function FrameOf(w: Word): nat {
    w / 4096
  }

  /** PTE_FLAGS. */
  function FlagsOf(w: Word): (r: nat)
    ensures r < 4096
  {
    w % 4096
  }

  /** flags | PTE_P. */
  function WithP(flags: nat): (r: nat)
    requires flags < 4096
    ensures r < 4096 && r % 2 == 1
  {
    if flags % 2 == 1 then flags else flags + 1
  }

  /** pa | flags | PTE_P. */
  function Entry(f: nat, flags: nat): Word
    requires f < PAGES && flags < 4096
  {
    f * 4096 + WithP(flags)
  }

  lemma EntryParts(f: nat, flags: nat)
    requires f < PAGES && flags < 4096
    ensures Present(Entry(f, flags)) && FrameOf(Entry(f, flags)) == f && FlagsOf(Entry(f, flags)) == WithP(flags)
    ensures Writable(Entry(f, flags)) == Writable(flags) && ForUser(Entry(f, flags)) == ForUser(flags)
  {
    hide Writable, ForUser;
    Frames(Entry(f, flags), f, WithP(flags));
    PresentIsOdd(f, flags);
    LowBits(Entry(f, flags));
    WithPKeeps(flags);
  }

  lemma PresentIsOdd(f: nat, flags: nat)
    requires f < PAGES && flags < 4096
    ensures Entry(f, flags) % 2 == 1
  {
    Half(Entry(f, flags), 2048 * f + WithP(flags) / 2, 1);
  }

  lemma WithPKeeps(flags: nat)
    requires flags < 4096
    ensures Writable(WithP(flags)) == Writable(flags) && ForUser(WithP(flags)) == ForUser(flags)
  {
    if flags % 2 == 0 {
      Half(flags + 1, flags / 2, 1);
      Quarter(flags + 1, flags / 4, flags % 4 + 1);
    }
  }

  /** The rights of an entry are in its flags. */
  lemma LowBits(w: Word)
    ensures Writable(w) == Writable(FlagsOf(w)) && ForUser(w) == ForUser(FlagsOf(w))
  {
    var q, r := w / 4096, w % 4096;
    var h, g := r / 2, r / 4;
    Half(w, 2048 * q + h, r % 2);
    Half(2048 * q + h, 1024 * q + h / 2, h % 2);
    Quarter(w, 1024 * q + g, r % 4);
    Half(1024 * q + g, 512 * q + g / 2, g % 2);
  }

  lemma Half(x: int, h: int, b: int)
    requires x == 2 * h + b && 0 <= b < 2
    ensures x / 2 == h && x % 2 == b
  {
  }

  lemma Quarter(x: int, h: int, b: int)
    requires x == 4 * h + b && 0 <= b < 4
    ensures x / 4 == h
  {
  }

  lemma Frames(x: int, h: int, b: int)
    requires x == 4096 * h + b && 0 <= b < 4096
    ensures x / 4096 == h && x % 4096 == b
  {
  }

  /** A present entry is its frame and its flags put together again. */
  lemma EntryWhole(w: Word)
    requires Present(w)
    ensures FrameOf(w) < PAGES && WithP(FlagsOf(w)) == FlagsOf(w) && Entry(FrameOf(w), FlagsOf(w)) == w
  {
  }

  lemma ZeroIsAbsent()
    ensures !Present(0)
  {
  }

  // ------------------------------------------------------------------
  // Virtual page numbers.

  function Pdx(v: nat): nat {
    v / ENTRIES
  }

  function Ptx(v: nat): (j: nat)
    ensures j < ENTRIES
  {
    v % ENTRIES
  }

  function Vpn(i: nat, j: nat): nat {
    i * ENTRIES + j
  }

  lemma PageParts(v: nat)
    requires v < PAGES
    ensures Pdx(v) < ENTRIES && Vpn(Pdx(v), Ptx(v)) == v
    ensures v < USER <==> Pdx(v) < 512
  {
  }

  lemma VpnParts(i: nat, j: nat)
    requires i < ENTRIES && j < ENTRIES
    ensures Vpn(i, j) < PAGES && Pdx(Vpn(i, j)) == i && Ptx(Vpn(i, j)) == j
  {
  }

  // ------------------------------------------------------------------
  // An address space: its directory d, and the translation it gives.

  /** What the hardware finds for virtual page v: the entry of its table, or
      nothing. */
  function Pte(mem: Mem, d: nat, v: nat): Word
    requires d < FRAMES && v < PAGES
  {
    PageParts(v);
    var pde := mem[d][Pdx(v)];
    if Present(pde) && FrameOf(pde) < FRAMES then mem[FrameOf(pde)][Ptx(v)] else 0
  }

  /** What a frame serves as in an address space. */
  datatype Ref = Directory | Table(i: nat) | UserPage(v: nat)

  type Owner = map<nat, Ref>

  predicate TableOk(mem: Mem, d: nat, own: Owner, i: nat)
    requires d < FRAMES && i < ENTRIES
  {
    var pde := mem[d][i];
    Present(pde) ==> FrameOf(pde) in own && own[FrameOf(pde)] == Table(i) && Writable(pde) && ForUser(pde)
  }

  predicate PageOk(mem: Mem, d: nat, own: Owner, v: nat)
    requires d < FRAMES && v < USER
  {
    var pte := Pte(mem, d, v);
    Present(pte) ==> FrameOf(pte) in own && own[FrameOf(pte)] == UserPage(v)
  }

  predicate RefOk(first: nat, mem: Mem, d: nat, f: nat, ref: Ref)
    requires d < FRAMES
  {
    && first <= f < FRAMES
    && match ref
       case Directory => f == d
       case Table(i) => i < ENTRIES && Present(mem[d][i]) && FrameOf(mem[d][i]) == f
       case UserPage(v) => v < USER && Present(Pte(mem, d, v)) && FrameOf(Pte(mem, d, v)) == f
  }

  /** own says exactly what the directory, the page tables and the user pages
      of the address space are: every frame in it is reached in one way, and
      everything reached is in it. The kernel half maps memory it does not own. */
  ghost predicate SpaceOk(first: nat, mem: Mem, d: nat, own: Owner) {
    && d in own && own[d] == Directory && d < FRAMES
    && (forall i :: 0 <= i < ENTRIES ==> TableOk(mem, d, own, i))
    && (forall v :: 0 <= v < USER ==> PageOk(mem, d, own, v))
    && (forall f :: f in own ==> RefOk(first, mem, d, f, own[f]))
  }

  /** One page translates alike in two memories. */
  predicate Same(mem: Mem, mem': Mem, d: nat, v: nat)
    requires d < FRAMES && v < PAGES
  {
    Pte(mem', d, v) == Pte(mem, d, v)
  }

  ghost predicate SameBut(mem: Mem, mem': Mem, d: nat, v: nat)
    requires d < FRAMES
  {
    forall u :: 0 <= u < PAGES && u != v ==> Same(mem, mem', d, u)
  }

  ghost predicate SameAll(mem: Mem, mem': Mem, d: nat)
    requires d < FRAMES
  {
    forall u :: 0 <= u < PAGES ==> Same(mem, mem', d, u)
  }

  // ------------------------------------------------------------------
  // How the changes the kernel makes act on an address space.

  /** Only the directory and the tables matter. */
  lemma Untouched(first: nat, mem: Mem, mem': Mem, d: nat, own: Owner)
    requires SpaceOk(first, mem, d, own)
    requires forall f :: f in own && !own[f].UserPage? ==> mem'[f] == mem[f]
    ensures SpaceOk(first, mem', d, own) && SameAll(mem, mem', d)
  {
    hide Present, Writable, ForUser, FrameOf, Pdx, Ptx;
    forall u | 0 <= u < PAGES ensures Same(mem, mem', d, u) {
      PageParts(u);
      assert TableOk(mem, d, own, Pdx(u));
    }
    forall i | 0 <= i < ENTRIES ensures TableOk(mem', d, own, i) { assert TableOk(mem, d, own, i); }
    forall v | 0 <= v < USER ensures PageOk(mem', d, own, v) { assert PageOk(mem, d, own, v) && Same(mem, mem', d, v); }
    forall f | f in own ensures RefOk(first, mem', d, f, own[f]) {
      assert RefOk(first, mem, d, f, own[f]);
      if own[f].UserPage? { assert Same(mem, mem', d, own[f].v); }
    }
  }

  /** A fresh, zeroed page table put in an empty directory slot. */
  lemma TableAdded(first: nat, mem: Mem, mem': Mem, d: nat, own: Owner, i: nat, t: nat, pde: Word)
    requires SpaceOk(first, mem, d, own) && i < ENTRIES && !Present(mem[d][i])
    requires t !in own && first <= t < FRAMES && Present(pde) && FrameOf(pde) == t && Writable(pde) && ForUser(pde)
    requires mem' == mem[t := ZeroFrame()][d := mem[d][i := pde]]
    ensures SpaceOk(first, mem', d, own[t := Table(i)]) && SameAll(mem, mem', d)
  {
    hide Present, Writable, ForUser, FrameOf, Pdx, Ptx;
    var own' := own[t := Table(i)];
    forall u | 0 <= u < PAGES ensures Same(mem, mem', d, u) {
      PageParts(u);
      assert TableOk(mem, d, own, Pdx(u));
      if Pdx(u) != i && Present(mem[d][Pdx(u)]) { assert RefOk(first, mem, d, FrameOf(mem[d][Pdx(u)]), Table(Pdx(u))); }
    }
    forall k | 0 <= k < ENTRIES ensures TableOk(mem', d, own', k) { assert TableOk(mem, d, own, k); }
    forall v | 0 <= v < USER ensures PageOk(mem', d, own', v) { assert PageOk(mem, d, own, v) && Same(mem, mem', d, v); }
    forall f | f in own' ensures RefOk(first, mem', d, f, own'[f]) {
      if f != t { assert RefOk(first, mem, d, f, own[f]); }
      if own'[f].UserPage? { assert Same(mem, mem', d, own'[f].v); }
    }
  }

  /** One entry of a page table written. */
  lemma EntryWritten(first: nat, mem: Mem, d: nat, own: Owner, i: nat, j: nat, w: Word)
    requires SpaceOk(first, mem, d, own) && i < ENTRIES && j < ENTRIES && Present(mem[d][i])
    ensures var t := FrameOf(mem[d][i]);
            t < FRAMES && t != d && t in own && own[t] == Table(i) && Vpn(i, j) < PAGES &&
            var mem' := mem[t := mem[t][j := w]];
            mem'[d] == mem[d] && Pte(mem', d, Vpn(i, j)) == w && SameBut(mem, mem', d, Vpn(i, j))
  {
    hide Present, Writable, ForUser, FrameOf, Pdx, Ptx, Vpn;
    var t := FrameOf(mem[d][i]);
    assert TableOk(mem, d, own, i) && RefOk(first, mem, d, t, Table(i));
    VpnParts(i, j);
    var mem', v := mem[t := mem[t][j := w]], Vpn(i, j);
    forall u | 0 <= u < PAGES && u != v ensures Same(mem, mem', d, u) {
      PageParts(u);
      assert TableOk(mem, d, own, Pdx(u));
    }
  }

  /** A user page mapped. */
  lemma PageAdded(first: nat, mem: Mem, mem': Mem, d: nat, own: Owner, v: nat, g: nat)
    requires SpaceOk(first, mem, d, own) && v < USER && mem'[d] == mem[d] && SameBut(mem, mem', d, v)
    requires !Present(Pte(mem, d, v)) && Present(Pte(mem', d, v)) && FrameOf(Pte(mem', d, v)) == g
    requires g !in own && first <= g < FRAMES
    ensures SpaceOk(first, mem', d, own[g := UserPage(v)])
  {
    hide Present, Writable, ForUser, FrameOf, Pdx, Ptx, Pte;
    var own' := own[g := UserPage(v)];
    forall k | 0 <= k < ENTRIES ensures TableOk(mem', d, own', k) { assert TableOk(mem, d, own, k); }
    forall u | 0 <= u < USER ensures PageOk(mem', d, own', u) {
      assert PageOk(mem, d, own, u);
      if u != v { assert Same(mem, mem', d, u); }
    }
    forall f | f in own' ensures RefOk(first, mem', d, f, own'[f]) {
      if f != g {
        assert RefOk(first, mem, d, f, own[f]);
        if own[f].UserPage? { assert Same(mem, mem', d, own[f].v); }
      }
    }
  }

  /** A user page unmapped. */
  lemma PageRemoved(first: nat, mem: Mem, mem': Mem, d: nat, own: Owner, v: nat)
    requires SpaceOk(first, mem, d, own) && v < USER && mem'[d] == mem[d] && SameBut(mem, mem', d, v)
    requires Present(Pte(mem, d, v)) && !Present(Pte(mem', d, v))
    ensures FrameOf(Pte(mem, d, v)) in own && SpaceOk(first, mem', d, own - {FrameOf(Pte(mem, d, v))})
  {
    hide Present, Writable, ForUser, FrameOf, Pdx, Ptx, Pte;
    var g := FrameOf(Pte(mem, d, v));
    assert PageOk(mem, d, own, v);
    var own' := own - {g};
    forall k | 0 <= k < ENTRIES ensures TableOk(mem', d, own', k) { assert TableOk(mem, d, own, k); }
    forall u | 0 <= u < USER ensures PageOk(mem', d, own', u) {
      assert PageOk(mem, d, own, u);
      if u != v { assert Same(mem, mem', d, u); }
    }
    forall f | f in own' ensures RefOk(first, mem', d, f, own'[f]) {
      assert RefOk(first, mem, d, f, own[f]);
      if own[f].UserPage? { assert Same(mem, mem', d, own[f].v); }
    }
  }

  /** An entry changed without changing which user page it maps. */
  lemma EntryRetained(first: nat, mem: Mem, mem': Mem, d: nat, own: Owner, v: nat)
    requires SpaceOk(first, mem, d, own) && v < PAGES && mem'[d] == mem[d] && SameBut(mem, mem', d, v)
    requires v < USER ==> Present(Pte(mem', d, v)) == Present(Pte(mem, d, v)) &&
                          FrameOf(Pte(mem', d, v)) == FrameOf(Pte(mem, d, v))
    ensures SpaceOk(first, mem', d, own)
  {
    hide Present, Writable, ForUser, FrameOf, Pdx, Ptx, Pte;
    forall k | 0 <= k < ENTRIES ensures TableOk(mem', d, own, k) { assert TableOk(mem, d, own, k); }
    forall u | 0 <= u < USER ensures PageOk(mem', d, own, u) {
      assert PageOk(mem, d, own, u);
      if u != v { assert Same(mem, mem', d, u); }
    }
    forall f | f in own ensures RefOk(first, mem', d, f, own[f]) {
      assert RefOk(first, mem, d, f, own[f]);
      if own[f].UserPage? && own[f].v != v { assert Same(mem, mem', d, own[f].v); }
    }
  }
}
