/** How many sectors one writei logs, from the sizes alone. */
module FsCount {
  import opened Types
  import opened Blocks
  import opened FsLogged
  import opened FsState
  import opened FsWrite

  /** The blocks that n > 0 bytes at off touch, the map block if one is new, the
      indirect block if it or an entry of it is new, and the inode if the file of
      that size grows. */
  function LogCount(size: nat, off: nat, n: nat): nat {
    var top := TopBlock(off, n);
    top - off / BSIZE
    + (if top > BlocksFor(size) then 1 else 0)
    + (if top > Max(NDIRECT, BlocksFor(size)) then 1 else 0)
    + (if off + n > size then 1 else 0)
  }

  ghost function CoverSet(owner: map<nat, Slot>, inum: nat, lo: nat, hi: nat): set<nat> {
    set c | c in owner && Covers(owner, inum, lo, hi, c)
  }

  lemma {:induction false} CoverCount(sb: Super, fs: Fs, reserved: set<nat>, owner: map<nat, Slot>, inum: nat, count: nat, lo: nat, hi: nat)
    requires Owned(sb, fs, reserved, owner, {}, {}) && Shaped(sb, fs) && inum < sb.ninodes && Dense(sb, fs, inum, count)
    requires lo <= hi <= count
    ensures |CoverSet(owner, inum, lo, hi)| == hi - lo
    decreases hi
  {
    hide Ref, Owned;
    if lo == hi {
      assert CoverSet(owner, inum, lo, hi) == {};
    } else {
      CoverCount(sb, fs, reserved, owner, inum, count, lo, hi - 1);
      var b := BlockOf(sb, fs, inum, hi - 1);
      HoldsBlock(sb, fs, reserved, owner, inum, hi - 1, b);
      assert CoverSet(owner, inum, lo, hi) == CoverSet(owner, inum, lo, hi - 1) + {b};
    }
  }

  /** The block of the file with that index, and it alone, is held by its slot. */
  lemma HoldsBlock(sb: Super, fs: Fs, reserved: set<nat>, owner: map<nat, Slot>, inum: nat, n: nat, b: Word)
    requires Owned(sb, fs, reserved, owner, {}, {}) && inum < sb.ninodes && n < MAXFILE && Shaped(sb, fs)
    requires b == BlockOf(sb, fs, inum, n) != 0
    ensures b in owner && owner[b] == DataSlot(inum, n)
    ensures forall c :: c in owner && owner[c].inum == inum && owner[c].pos != NDIRECT && IndexOf(owner[c]) == n ==> c == b
  {
    hide Ref, BitOk;
    assert SlotOk(fs, owner, DataSlot(inum, n));
    IndexOfData(inum, n);
    forall c | c in owner && owner[c].inum == inum && owner[c].pos != NDIRECT && IndexOf(owner[c]) == n ensures c == b {
      assert OwnerOk(sb, fs, reserved, owner, {}, {}, c);
    }
  }

  /** Before and after a write to one file. */
  ghost predicate Written(sb: Super, fs0: Fs, fs: Fs, reserved: set<nat>, owner0: map<nat, Slot>, owner: map<nat, Slot>,
                          inum: nat, count0: nat, count: nat) {
    && Owned(sb, fs0, reserved, owner0, {}, {}) && Owned(sb, fs, reserved, owner, {}, {})
    && Shaped(sb, fs0) && Shaped(sb, fs) && inum < sb.ninodes
    && Dense(sb, fs0, inum, count0) && Dense(sb, fs, inum, count) && count0 <= count
    && Keeps(owner0, owner) && (forall x :: NewBlock(owner0, owner, x) ==> owner[x].inum == inum)
  }

  /** The new blocks are those past the old end, and the indirect block if the
      file first reaches it now. */
  lemma NewBlocks(sb: Super, fs0: Fs, fs: Fs, reserved: set<nat>, owner0: map<nat, Slot>, owner: map<nat, Slot>,
                  inum: nat, count0: nat, count: nat, x: nat)
    requires Written(sb, fs0, fs, reserved, owner0, owner, inum, count0, count)
    ensures NewBlock(owner0, owner, x) ==>
              if owner[x].pos == NDIRECT then count0 <= NDIRECT < count else count0 <= IndexOf(owner[x]) < count
  {
    hide BitOk;
    if NewBlock(owner0, owner, x) {
      assert OwnerOk(sb, fs, reserved, owner, {}, {}, x);
      var s := owner[x];
      NotThereBefore(sb, fs0, fs, reserved, owner0, owner, inum, x);
      if s.pos != NDIRECT {
        IndexOfData(inum, IndexOf(s));
        assert s == DataSlot(inum, IndexOf(s));
        assert BlockOf(sb, fs, inum, IndexOf(s)) == x && BlockOf(sb, fs0, inum, IndexOf(s)) == 0;
      }
    }
  }

  lemma OwnerRef(sb: Super, fs: Fs, reserved: set<nat>, owner: map<nat, Slot>, b: nat)
    requires Owned(sb, fs, reserved, owner, {}, {}) && Shaped(sb, fs)
    ensures b in owner ==> b != 0 && IsSlot(sb, owner[b]) && Ref(fs, owner[b]) == b
  {
    hide Ref, BitOk;
    if b in owner { assert OwnerOk(sb, fs, reserved, owner, {}, {}, b); }
  }

  lemma NotThereBefore(sb: Super, fs0: Fs, fs: Fs, reserved: set<nat>, owner0: map<nat, Slot>, owner: map<nat, Slot>, inum: nat, x: nat)
    requires Owned(sb, fs0, reserved, owner0, {}, {}) && Owned(sb, fs, reserved, owner, {}, {})
    requires Shaped(sb, fs0) && Shaped(sb, fs) && Keeps(owner0, owner) && NewBlock(owner0, owner, x)
    ensures IsSlot(sb, owner[x]) && Ref(fs0, owner[x]) == 0 && x != 0
  {
    hide Ref, BitOk;
    assert OwnerOk(sb, fs, reserved, owner, {}, {}, x);
    var s := owner[x];
    assert SlotOk(fs0, owner0, s);
    OwnerRef(sb, fs, reserved, owner, Ref(fs0, s));
  }

  lemma SomeNew(sb: Super, fs0: Fs, fs: Fs, reserved: set<nat>, owner0: map<nat, Slot>, owner: map<nat, Slot>,
                inum: nat, count0: nat, count: nat)
    requires Written(sb, fs0, fs, reserved, owner0, owner, inum, count0, count)
    ensures (exists x :: NewBlock(owner0, owner, x)) <==> count > count0
    ensures (exists x :: NewFar(owner0, owner, x)) <==> count > Max(NDIRECT, count0)
  {
    hide Owned, Ref;
    if x :| NewBlock(owner0, owner, x) { NewBlocks(sb, fs0, fs, reserved, owner0, owner, inum, count0, count, x); }
    if x :| NewFar(owner0, owner, x) { NewBlocks(sb, fs0, fs, reserved, owner0, owner, inum, count0, count, x); }
    if count > count0 {
      var b := BlockOf(sb, fs, inum, count - 1);
      HoldsBlock(sb, fs, reserved, owner, inum, count - 1, b);
      LastIsNew(sb, fs0, reserved, owner0, inum, count0, count - 1, b, owner);
      assert NewBlock(owner0, owner, b);
      if count > NDIRECT { assert NewFar(owner0, owner, b); }
    }
  }

  lemma LastIsNew(sb: Super, fs0: Fs, reserved: set<nat>, owner0: map<nat, Slot>, inum: nat, count0: nat, n: nat, b: nat, owner: map<nat, Slot>)
    requires Owned(sb, fs0, reserved, owner0, {}, {}) && Shaped(sb, fs0) && inum < sb.ninodes && Dense(sb, fs0, inum, count0)
    requires count0 <= n < MAXFILE && Keeps(owner0, owner) && b in owner && owner[b] == DataSlot(inum, n)
    ensures b !in owner0
  {
    hide BitOk;
    assert BlockOf(sb, fs0, inum, n) == 0;
    OwnerRef(sb, fs0, reserved, owner0, b);
  }

  /** Exactly so many sectors, on a disk whose free map is one block. */
  lemma CountLogged(sb: Super, fs0: Fs, fs: Fs, reserved: set<nat>, owner0: map<nat, Slot>, owner: map<nat, Slot>,
                    logged: set<nat>, inum: nat, off: nat, n: nat)
    requires FsOk(sb, fs0, reserved, owner0) && FsOk(sb, fs, reserved, owner) && inum < sb.ninodes && sb.size <= BPB && n > 0
    requires Shaped(sb, fs0) && Shaped(sb, fs)
    requires off <= fs0.inodes[inum].size && fs.inodes[inum].size == NewSize(fs0.inodes[inum].size, off, n)
    requires WriteiLogs(sb, {}, logged, owner0, owner, inum, off, n, off + n > fs0.inodes[inum].size)
    ensures |logged| == LogCount(fs0.inodes[inum].size, off, n)
  {
    hide Owned, Dense, Synced, Covers, NewBlock, NewFar;
    var size := fs0.inodes[inum].size;
    assert FileOk(sb, fs0, inum) && FileOk(sb, fs, inum);
    var count0, count := BlocksFor(size), BlocksFor(NewSize(size, off, n));
    Sizes(size, off, n);
    SomeNew(sb, fs0, fs, reserved, owner0, owner, inum, count0, count);
    CoverCount(sb, fs, reserved, owner, inum, count, off / BSIZE, TopBlock(off, n));
    var data := CoverSet(owner, inum, off / BSIZE, TopBlock(off, n));
    var far := count > Max(NDIRECT, count0);
    var ind := fs.inodes[inum].addrs[NDIRECT];
    Places(sb, fs, reserved, owner, inum, count, ind);
    OneMapBlock(sb, fs, reserved, owner0, owner);
    if far { NotData(owner, inum, off / BSIZE, TopBlock(off, n), ind); }
    Sum(data, count > count0, sb.ninodes / IPB + 3, far, ind, off + n > size, IBlock(inum));
    SectorsAre(sb, logged, owner0, owner, inum, off, n, off + n > size, count > count0, far, ind);
  }

  lemma Sizes(size: nat, off: nat, n: nat)
    requires n > 0 && off <= size
    ensures var count := BlocksFor(NewSize(size, off, n));
            && BlocksFor(size) <= count && off / BSIZE <= TopBlock(off, n) <= count
            && (count > BlocksFor(size) <==> TopBlock(off, n) > BlocksFor(size))
            && (TopBlock(off, n) > BlocksFor(size) ==> TopBlock(off, n) == count)
  {
  }

  /** The four kinds of sector lie apart. */
  lemma Places(sb: Super, fs: Fs, reserved: set<nat>, owner: map<nat, Slot>, inum: nat, count: nat, ind: nat)
    requires Owned(sb, fs, reserved, owner, {}, {}) && Shaped(sb, fs) && inum < sb.ninodes && Dense(sb, fs, inum, count)
    requires ind == fs.inodes[inum].addrs[NDIRECT] && sb.size <= BPB
    ensures forall c :: c in owner ==> c != IBlock(inum) && c != sb.ninodes / IPB + 3
    ensures IBlock(inum) != sb.ninodes / IPB + 3
    ensures count > NDIRECT ==> ind in owner && owner[ind] == Slot(inum, NDIRECT)
    ensures forall c :: c in owner && owner[c] == Slot(inum, NDIRECT) ==> c == ind
  {
    hide BitOk;
    assert IBlock(inum) < sb.size;
    assert BBlock(sb, 0) in reserved;
    forall c | c in owner ensures c != IBlock(inum) && c != sb.ninodes / IPB + 3 && (owner[c] == Slot(inum, NDIRECT) ==> c == ind) {
      assert OwnerOk(sb, fs, reserved, owner, {}, {}, c);
    }
    assert SlotOk(fs, owner, Slot(inum, NDIRECT));
  }

  lemma NotData(owner: map<nat, Slot>, inum: nat, lo: nat, hi: nat, c: nat)
    requires c in owner ==> owner[c].pos == NDIRECT
    ensures c !in CoverSet(owner, inum, lo, hi)
  {
  }

  lemma OneMapBlock(sb: Super, fs: Fs, reserved: set<nat>, owner0: map<nat, Slot>, owner: map<nat, Slot>)
    requires Owned(sb, fs, reserved, owner, {}, {}) && sb.size <= BPB
    ensures forall c :: InMap(sb, owner0, owner, c) <==> c == sb.ninodes / IPB + 3 && exists x :: NewBlock(owner0, owner, x)
  {
    hide BitOk, SlotOk, Ref;
    forall x | x in owner ensures BBlock(sb, x) == sb.ninodes / IPB + 3 {
      assert OwnerOk(sb, fs, reserved, owner, {}, {}, x);
    }
  }

  function Opt(on: bool, c: nat): set<nat> {
    if on then {c} else {}
  }

  lemma Sum(data: set<nat>, a: bool, x: nat, b: bool, y: nat, c: bool, z: nat)
    requires x !in data && z !in data && x != z && (b ==> y !in data && y != x && y != z)
    ensures |data + Opt(a, x) + Opt(b, y) + Opt(c, z)| ==
            |data| + (if a then 1 else 0) + (if b then 1 else 0) + (if c then 1 else 0)
  {
    var s1 := data + Opt(a, x);
    assert |s1| == |data| + (if a then 1 else 0);
    var s2 := s1 + Opt(b, y);
    assert |s2| == |s1| + (if b then 1 else 0);
    assert |s2 + Opt(c, z)| == |s2| + (if c then 1 else 0);
  }

  lemma SectorsAre(sb: Super, logged: set<nat>, owner0: map<nat, Slot>, owner: map<nat, Slot>, inum: nat, off: nat, n: nat,
                   grew: bool, some: bool, far: bool, ind: nat)
    requires WriteiLogs(sb, {}, logged, owner0, owner, inum, off, n, grew)
    requires some <==> exists x :: NewBlock(owner0, owner, x)
    requires far <==> exists x :: NewFar(owner0, owner, x)
    requires forall c :: InMap(sb, owner0, owner, c) <==> c == sb.ninodes / IPB + 3 && exists x :: NewBlock(owner0, owner, x)
    requires forall c :: c in owner && owner[c] == Slot(inum, NDIRECT) ==> c == ind
    requires far ==> ind in owner && owner[ind] == Slot(inum, NDIRECT)
    ensures logged == CoverSet(owner, inum, off / BSIZE, TopBlock(off, n)) + Opt(some, sb.ninodes / IPB + 3) + Opt(far, ind) + Opt(grew, IBlock(inum))
  {
    hide NewBlock, NewFar, InMap;
  }
}
