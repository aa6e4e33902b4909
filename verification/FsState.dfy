/** The file layer of fs.c on values: the free map, inodes with their block
    addresses, and who owns which block.  Contents of sectors are what the
    buffer cache shows. */
module FsState {
  import opened Types
  import opened Blocks

  const NDIRECT := 12
  const NINDIRECT := 128
  const MAXFILE := 140
  const IPB := 8

  type Half = x: int | 0 <= x < 0x1_0000

  datatype Inode = Inode(kind: Half, major: Half, minor: Half, nlink: Half, size: Word, addrs: seq<Word>)

  /** What the superblock says: total blocks and number of inodes. */
  datatype Super = Super(size: nat, ninodes: nat)

  function IBlock(inum: nat): nat {
    inum / IPB + 2
  }

  function BBlock(sb: Super, b: nat): nat {
    b / BPB + sb.ninodes / IPB + 3
  }

  datatype Fs = Fs(blocks: seq<Block>, inodes: seq<Inode>)

  /** A place that holds a block address: one of an inode's direct addresses
      (pos < 12), its indirect-block address (12), or an entry of the indirect
      block (13 + j). */
  datatype Slot = Slot(inum: nat, pos: nat)

  ghost predicate IsSlot(sb: Super, s: Slot) {
    s.inum < sb.ninodes && s.pos < 141
  }

  ghost predicate Shaped(sb: Super, fs: Fs) {
    && |fs.inodes| == sb.ninodes && sb.size <= |fs.blocks|
    && forall i :: 0 <= i < |fs.inodes| ==> |fs.inodes[i].addrs| == NDIRECT + 1
  }

  /** The address stored in a slot; zero for no block. */
  ghost function Ref(fs: Fs, s: Slot): Word
    requires s.inum < |fs.inodes| && |fs.inodes[s.inum].addrs| == NDIRECT + 1 && s.pos < 141
  {
    var addrs := fs.inodes[s.inum].addrs;
    if s.pos <= NDIRECT then addrs[s.pos]
    else if addrs[NDIRECT] == 0 || addrs[NDIRECT] >= |fs.blocks| then 0
    else WordAt(fs.blocks[addrs[NDIRECT]], s.pos - NDIRECT - 1)
  }

  predicate Used(sb: Super, fs: Fs, b: nat)
    requires BBlock(sb, b) < |fs.blocks|
  {
    BitAt(fs.blocks[BBlock(sb, b)], b % BPB)
  }

  /** A block of the free map. */
  ghost predicate IsMapBlock(sb: Super, c: nat) {
    exists b :: 0 <= b < sb.size && BBlock(sb, b) == c
  }

  /** The metadata and log blocks never given to files. */
  ghost predicate LayoutOk(sb: Super, reserved: set<nat>) {
    && 0 in reserved && 1 in reserved && sb.size < WORD_LIMIT
    && (forall i :: 0 <= i < sb.ninodes ==> IBlock(i) in reserved && IBlock(i) < sb.size)
    && (forall b :: 0 <= b < sb.size ==> BBlock(sb, b) in reserved && BBlock(sb, b) < sb.size)
  }

  /** An address in a live slot is recorded as belonging to that slot. */
  ghost predicate SlotOk(fs: Fs, owner: map<nat, Slot>, s: Slot)
    requires s.inum < |fs.inodes| && |fs.inodes[s.inum].addrs| == NDIRECT + 1 && s.pos < 141
  {
    Ref(fs, s) != 0 ==> Ref(fs, s) in owner && owner[Ref(fs, s)] == s
  }

  ghost predicate OwnerOk(sb: Super, fs: Fs, reserved: set<nat>, owner: map<nat, Slot>, extra: set<nat>, dead: set<Slot>, b: nat)
    requires Shaped(sb, fs)
  {
    && b in owner && b < sb.size && b !in reserved && b !in extra && IsSlot(sb, owner[b])
    && owner[b] !in dead && Ref(fs, owner[b]) == b
  }

  ghost predicate BitOk(sb: Super, fs: Fs, reserved: set<nat>, owner: map<nat, Slot>, extra: set<nat>, b: nat)
    requires BBlock(sb, b) < |fs.blocks|
  {
    Used(sb, fs, b) <==> b in reserved || b in owner || b in extra
  }

  /** Block ownership: the addresses in the slots of all inodes are the keys of
      `owner`, each held by one slot only, and the set bits of the free map are
      exactly the reserved blocks, the owned ones and those in `extra`, which
      are on their way from or to a slot.  Slots in `dead` are being dropped. */
  ghost predicate Owned(sb: Super, fs: Fs, reserved: set<nat>, owner: map<nat, Slot>, extra: set<nat>, dead: set<Slot>) {
    && LayoutOk(sb, reserved) && Shaped(sb, fs)
    && (forall s :: IsSlot(sb, s) && s !in dead ==> SlotOk(fs, owner, s))
    && (forall b :: b in owner ==> OwnerOk(sb, fs, reserved, owner, extra, dead, b))
    && (forall b :: b in extra ==> b < sb.size && b !in reserved)
    && (forall b :: 0 <= b < sb.size ==> BitOk(sb, fs, reserved, owner, extra, b))
    && (forall s :: s in dead && s.pos == NDIRECT ==> forall p :: NDIRECT < p < 141 ==> Slot(s.inum, p) in dead)
  }

  lemma OwnedShaped(sb: Super, fs: Fs, reserved: set<nat>, owner: map<nat, Slot>)
    requires Owned(sb, fs, reserved, owner, {}, {})
    ensures LayoutOk(sb, reserved) && Shaped(sb, fs)
  {
  }

  // ----- changes that move no address

  ghost predicate SameAddrs(fs: Fs, fs': Fs) {
    && |fs'.blocks| == |fs.blocks| && |fs'.inodes| == |fs.inodes|
    && forall i :: 0 <= i < |fs.inodes| ==> fs'.inodes[i].addrs == fs.inodes[i].addrs
  }

  /** No indirect block of a live inode changed. */
  ghost predicate SameIndirect(fs: Fs, fs': Fs, owner: map<nat, Slot>)
    requires |fs'.blocks| == |fs.blocks|
  {
    forall c :: c in owner && owner[c].pos == NDIRECT && c < |fs.blocks| ==> fs'.blocks[c] == fs.blocks[c]
  }

  lemma SameRef(sb: Super, fs: Fs, fs': Fs, reserved: set<nat>, owner: map<nat, Slot>, extra: set<nat>, dead: set<Slot>, s: Slot)
    requires Owned(sb, fs, reserved, owner, extra, dead) && SameAddrs(fs, fs') && SameIndirect(fs, fs', owner)
    requires IsSlot(sb, s) && s !in dead
    ensures Ref(fs', s) == Ref(fs, s)
  {
    if s.pos > NDIRECT {
      var i := Slot(s.inum, NDIRECT);
      assert i !in dead;
      assert SlotOk(fs, owner, i);
    }
  }

  lemma Reframed(sb: Super, fs: Fs, fs': Fs, reserved: set<nat>, owner: map<nat, Slot>, extra: set<nat>, extra': set<nat>, dead: set<Slot>)
    requires Owned(sb, fs, reserved, owner, extra, dead) && SameAddrs(fs, fs') && SameIndirect(fs, fs', owner)
    requires forall b :: b in extra' ==> b < sb.size && b !in reserved && b !in owner
    requires forall b :: 0 <= b < sb.size ==> BitOk(sb, fs', reserved, owner, extra', b)
    ensures Owned(sb, fs', reserved, owner, extra', dead)
  {
    hide Ref, BitOk;
    assert Shaped(sb, fs');
    forall s | IsSlot(sb, s) && s !in dead ensures SlotOk(fs', owner, s) {
      SameRef(sb, fs, fs', reserved, owner, extra, dead, s);
      assert SlotOk(fs, owner, s);
    }
    forall b | b in owner ensures OwnerOk(sb, fs', reserved, owner, extra', dead, b) {
      assert OwnerOk(sb, fs, reserved, owner, extra, dead, b);
      SameRef(sb, fs, fs', reserved, owner, extra, dead, owner[b]);
    }
  }

  function SetUsed(sb: Super, fs: Fs, b: nat, on: bool): Fs
    requires BBlock(sb, b) < |fs.blocks|
  {
    fs.(blocks := fs.blocks[BBlock(sb, b) := SetBit(fs.blocks[BBlock(sb, b)], b % BPB, on)])
  }

  lemma SetUsedBits(sb: Super, fs: Fs, b: nat, on: bool, c: nat)
    requires BBlock(sb, b) < |fs.blocks| && BBlock(sb, c) < |fs.blocks|
    ensures Used(sb, SetUsed(sb, fs, b, on), c) == if c == b then on else Used(sb, fs, c)
  {
    hide SetBit, BitAt;
    if BBlock(sb, b) == BBlock(sb, c) && c != b { assert b % BPB != c % BPB; }
  }

  /** What balloc leaves: the bit set and the block zeroed. */
  function Allocated(sb: Super, fs: Fs, b: nat): Fs
    requires BBlock(sb, b) < |fs.blocks| && b < |fs.blocks|
  {
    var marked := SetUsed(sb, fs, b, true);
    marked.(blocks := marked.blocks[b := ZeroBlock()])
  }

  /** balloc takes a block out of circulation that nobody holds. */
  lemma AllocateKeepsOwned(sb: Super, fs: Fs, reserved: set<nat>, owner: map<nat, Slot>, extra: set<nat>, b: nat)
    requires Owned(sb, fs, reserved, owner, extra, {}) && b < sb.size && BBlock(sb, b) < |fs.blocks| && !Used(sb, fs, b)
    ensures b !in reserved && b !in owner && b !in extra
    ensures Owned(sb, Allocated(sb, fs, b), reserved, owner, extra + {b}, {})
    ensures forall c :: 0 <= c < |fs.blocks| && c != b && c != BBlock(sb, b) ==> Allocated(sb, fs, b).blocks[c] == fs.blocks[c]
  {
    hide Used, SetBit, Ref, SlotOk;
    var fs' := Allocated(sb, fs, b);
    assert BitOk(sb, fs, reserved, owner, extra, b);
    assert BBlock(sb, b) in reserved;
    forall c | 0 <= c < sb.size ensures BitOk(sb, fs', reserved, owner, extra + {b}, c) {
      assert BitOk(sb, fs, reserved, owner, extra, c);
      assert BBlock(sb, c) in reserved && BBlock(sb, c) != b;
      SetUsedBits(sb, fs, b, true, c);
      UsedDepends(sb, SetUsed(sb, fs, b, true), fs', c);
    }
    forall c | c in owner ensures c < sb.size && c != b && c != BBlock(sb, b) {
      assert OwnerOk(sb, fs, reserved, owner, extra, {}, c);
    }
    Reframed(sb, fs, fs', reserved, owner, extra, extra + {b}, {});
  }

  lemma UsedDepends(sb: Super, fs: Fs, fs': Fs, b: nat)
    requires BBlock(sb, b) < |fs.blocks| && BBlock(sb, b) < |fs'.blocks|
    requires fs'.blocks[BBlock(sb, b)] == fs.blocks[BBlock(sb, b)]
    ensures Used(sb, fs', b) == Used(sb, fs, b)
  {
  }

  /** bfree of a block in transit finds its bit set and puts it back. */
  lemma FreeKeepsOwned(sb: Super, fs: Fs, reserved: set<nat>, owner: map<nat, Slot>, extra: set<nat>, dead: set<Slot>, b: nat)
    requires Owned(sb, fs, reserved, owner, extra, dead) && b in extra
    ensures b < sb.size && BBlock(sb, b) < |fs.blocks| && Used(sb, fs, b)
    ensures Owned(sb, SetUsed(sb, fs, b, false), reserved, owner, extra - {b}, dead)
  {
    hide Used, SetBit, Ref, SlotOk;
    assert BitOk(sb, fs, reserved, owner, extra, b);
    assert BBlock(sb, b) in reserved && BBlock(sb, b) < sb.size;
    var fs' := SetUsed(sb, fs, b, false);
    forall c | c in owner ensures c < sb.size && c !in extra && c != BBlock(sb, b) {
      assert OwnerOk(sb, fs, reserved, owner, extra, dead, c);
    }
    forall c | 0 <= c < sb.size ensures BitOk(sb, fs', reserved, owner, extra - {b}, c) {
      assert BitOk(sb, fs, reserved, owner, extra, c);
      assert BBlock(sb, c) < sb.size;
      SetUsedBits(sb, fs, b, false, c);
    }
    Reframed(sb, fs, fs', reserved, owner, extra, extra - {b}, dead);
  }

  /** Writing a block that is neither an indirect block nor part of the free map. */
  lemma WriteKeepsOwned(sb: Super, fs: Fs, reserved: set<nat>, owner: map<nat, Slot>, extra: set<nat>, dead: set<Slot>, c: nat, data: Block)
    requires Owned(sb, fs, reserved, owner, extra, dead) && c < |fs.blocks|
    requires c in owner ==> owner[c].pos != NDIRECT
    requires forall b :: 0 <= b < sb.size ==> BBlock(sb, b) != c
    ensures Owned(sb, fs.(blocks := fs.blocks[c := data]), reserved, owner, extra, dead)
  {
    hide Used, Ref, SlotOk;
    var fs' := fs.(blocks := fs.blocks[c := data]);
    forall b | 0 <= b < sb.size ensures BitOk(sb, fs', reserved, owner, extra, b) {
      assert BitOk(sb, fs, reserved, owner, extra, b);
      assert BBlock(sb, b) < sb.size;
      UsedDepends(sb, fs, fs', b);
    }
    forall b | b in owner ensures b !in extra { assert OwnerOk(sb, fs, reserved, owner, extra, dead, b); }
    Reframed(sb, fs, fs', reserved, owner, extra, extra, dead);
  }

  // ----- storing an address

  function WithAddr(fs: Fs, inum: nat, pos: nat, b: Word): Fs
    requires inum < |fs.inodes| && pos < |fs.inodes[inum].addrs|
  {
    fs.(inodes := fs.inodes[inum := fs.inodes[inum].(addrs := fs.inodes[inum].addrs[pos := b])])
  }

  /** The inode takes possession of a freshly zeroed block. */
  lemma LinkAddr(sb: Super, fs: Fs, reserved: set<nat>, owner: map<nat, Slot>, extra: set<nat>, inum: nat, pos: nat, b: Word)
    requires Owned(sb, fs, reserved, owner, extra, {}) && b in extra && inum < sb.ninodes && pos <= NDIRECT
    requires fs.inodes[inum].addrs[pos] == 0 && b < |fs.blocks| && fs.blocks[b] == ZeroBlock()
    ensures Owned(sb, WithAddr(fs, inum, pos, b), reserved, owner[b := Slot(inum, pos)], extra - {b}, {})
  {
    hide Used;
    var at := Slot(inum, pos);
    var fs', owner' := WithAddr(fs, inum, pos, b), owner[b := at];
    assert forall c :: c in owner ==> OwnerOk(sb, fs, reserved, owner, extra, {}, c);
    assert Shaped(sb, fs');
    forall s | IsSlot(sb, s) ensures SlotOk(fs', owner', s) {
      assert SlotOk(fs, owner, s);
      if s != at { assert Ref(fs', s) == Ref(fs, s); }
    }
    forall c | c in owner' ensures OwnerOk(sb, fs', reserved, owner', extra - {b}, {}, c) {
      if c != b { assert Ref(fs', owner[c]) == Ref(fs, owner[c]); }
    }
    forall c | 0 <= c < sb.size ensures BitOk(sb, fs', reserved, owner', extra - {b}, c) {
      assert BitOk(sb, fs, reserved, owner, extra, c);
      assert BBlock(sb, c) < sb.size;
      UsedDepends(sb, fs, fs', c);
    }
  }

  function WithEntry(fs: Fs, ind: nat, j: nat, b: Word): Fs
    requires ind < |fs.blocks| && j < NINDIRECT
  {
    fs.(blocks := fs.blocks[ind := SetWord(fs.blocks[ind], j, b)])
  }

  /** The same for an entry of an inode's indirect block. */
  lemma LinkEntry(sb: Super, fs: Fs, reserved: set<nat>, owner: map<nat, Slot>, extra: set<nat>, inum: nat, j: nat, b: Word)
    requires Owned(sb, fs, reserved, owner, extra, {}) && b in extra && inum < sb.ninodes && j < NINDIRECT
    requires fs.inodes[inum].addrs[NDIRECT] != 0 && Ref(fs, Slot(inum, NDIRECT + 1 + j)) == 0
    ensures fs.inodes[inum].addrs[NDIRECT] < |fs.blocks|
    ensures Owned(sb, WithEntry(fs, fs.inodes[inum].addrs[NDIRECT], j, b), reserved,
                  owner[b := Slot(inum, NDIRECT + 1 + j)], extra - {b}, {})
  {
    hide Used, SetWord, WordAt;
    var ind, at := fs.inodes[inum].addrs[NDIRECT], Slot(inum, NDIRECT + 1 + j);
    assert SlotOk(fs, owner, Slot(inum, NDIRECT));
    assert forall c :: c in owner ==> OwnerOk(sb, fs, reserved, owner, extra, {}, c);
    assert ind in owner;
    var fs', owner' := WithEntry(fs, ind, j, b), owner[b := at];
    assert Shaped(sb, fs');
    forall s | IsSlot(sb, s) ensures SlotOk(fs', owner', s) && (s != at ==> Ref(fs', s) == Ref(fs, s)) {
      assert SlotOk(fs, owner, s) && SlotOk(fs, owner, Slot(s.inum, NDIRECT));
    }
    forall c | c in owner' ensures OwnerOk(sb, fs', reserved, owner', extra - {b}, {}, c) {
      if c != b { assert owner[c] != at && Ref(fs', owner[c]) == Ref(fs, owner[c]); }
    }
    forall c | 0 <= c < sb.size ensures BitOk(sb, fs', reserved, owner', extra - {b}, c) {
      assert BitOk(sb, fs, reserved, owner, extra, c);
      assert BBlock(sb, c) < sb.size && BBlock(sb, c) in reserved;
      UsedDepends(sb, fs, fs', c);
    }
  }

  // ----- dropping addresses

  /** The slots that disappear when address `pos` of an inode is cleared. */
  ghost function Dropped(inum: nat, pos: nat): set<Slot> {
    if pos < NDIRECT then {Slot(inum, pos)} else set p | NDIRECT <= p < 141 :: Slot(inum, p)
  }

  ghost function Detached(owner: map<nat, Slot>, dead: set<Slot>): map<nat, Slot> {
    map b | b in owner && owner[b] !in dead :: owner[b]
  }

  ghost function Loose(owner: map<nat, Slot>, dead: set<Slot>): set<nat> {
    set b | b in owner && owner[b] in dead
  }

  /** The blocks of the dropped slots are in transit, still marked used. */
  lemma DetachKeepsOwned(sb: Super, fs: Fs, reserved: set<nat>, owner: map<nat, Slot>, inum: nat, pos: nat)
    requires Owned(sb, fs, reserved, owner, {}, {}) && inum < sb.ninodes && pos <= NDIRECT
    ensures var dead := Dropped(inum, pos);
            Owned(sb, fs, reserved, Detached(owner, dead), Loose(owner, dead), dead)
  {
    hide Used, Ref;
    var dead := Dropped(inum, pos);
    var owner', extra := Detached(owner, dead), Loose(owner, dead);
    assert forall c :: c in owner ==> OwnerOk(sb, fs, reserved, owner, {}, {}, c);
    forall s | IsSlot(sb, s) && s !in dead ensures SlotOk(fs, owner', s) { assert SlotOk(fs, owner, s); }
    forall c | c in owner' ensures OwnerOk(sb, fs, reserved, owner', extra, dead, c) { }
    forall c | 0 <= c < sb.size ensures BitOk(sb, fs, reserved, owner', extra, c) {
      assert BitOk(sb, fs, reserved, owner, {}, c);
    }
  }

  /** Once their blocks are free and the address is zeroed, they are gone. */
  lemma ClearAddrKeepsOwned(sb: Super, fs: Fs, reserved: set<nat>, owner: map<nat, Slot>, extra: set<nat>, inum: nat, pos: nat)
    requires Owned(sb, fs, reserved, owner, extra, Dropped(inum, pos)) && inum < sb.ninodes && pos <= NDIRECT
    ensures Owned(sb, WithAddr(fs, inum, pos, 0), reserved, owner, extra, {})
  {
    hide Used;
    var fs', dead := WithAddr(fs, inum, pos, 0), Dropped(inum, pos);
    assert Shaped(sb, fs');
    forall s | IsSlot(sb, s) ensures SlotOk(fs', owner, s) && (s !in dead ==> Ref(fs', s) == Ref(fs, s)) {
      if s in dead {
        assert s.inum == inum;
      } else {
        assert SlotOk(fs, owner, s);
        assert s.inum == inum ==> s.pos != pos && (s.pos > NDIRECT ==> pos != NDIRECT);
      }
    }
    forall c | c in owner ensures OwnerOk(sb, fs', reserved, owner, extra, {}, c) {
      assert OwnerOk(sb, fs, reserved, owner, extra, dead, c);
    }
    forall c | 0 <= c < sb.size ensures BitOk(sb, fs', reserved, owner, extra, c) {
      assert BitOk(sb, fs, reserved, owner, extra, c);
      UsedDepends(sb, fs, fs', c);
    }
  }

  // ----- what ownership means

  /** Two different slots of any two inodes never hold the same block. */
  lemma SlotsDisjoint(sb: Super, fs: Fs, reserved: set<nat>, owner: map<nat, Slot>, s: Slot, s': Slot)
    requires Owned(sb, fs, reserved, owner, {}, {}) && IsSlot(sb, s) && IsSlot(sb, s') && s != s'
    ensures Ref(fs, s) != 0 ==> Ref(fs, s) != Ref(fs, s')
  {
    assert SlotOk(fs, owner, s) && SlotOk(fs, owner, s');
  }

  /** The free map marks exactly the reserved blocks and those some slot holds. */
  lemma MapIsExact(sb: Super, fs: Fs, reserved: set<nat>, owner: map<nat, Slot>, b: nat)
    requires Owned(sb, fs, reserved, owner, {}, {}) && b < sb.size
    ensures BBlock(sb, b) < |fs.blocks|
    ensures Used(sb, fs, b) <==> b in reserved || exists s :: IsSlot(sb, s) && Ref(fs, s) == b
  {
    hide Used, Ref;
    assert BBlock(sb, b) < sb.size;
    assert BitOk(sb, fs, reserved, owner, {}, b);
    if b in owner {
      assert OwnerOk(sb, fs, reserved, owner, {}, {}, b);
    }
    if b !in reserved && exists s :: IsSlot(sb, s) && Ref(fs, s) == b {
      var s :| IsSlot(sb, s) && Ref(fs, s) == b;
      assert SlotOk(fs, owner, s);
    }
  }

  // ----- growing one file

  ghost predicate KeptBlock(fs: Fs, fs': Fs, owner: map<nat, Slot>, owner': map<nat, Slot>, b: nat) {
    && b in owner && b in owner' && owner'[b] == owner[b]
    && (owner[b].pos != NDIRECT ==> b < |fs.blocks| == |fs'.blocks| && fs'.blocks[b] == fs.blocks[b])
  }

  ghost predicate KeptRef(sb: Super, fs: Fs, fs': Fs, inum: nat, s: Slot)
    requires Shaped(sb, fs) && Shaped(sb, fs') && IsSlot(sb, s)
  {
    Ref(fs, s) != 0 || s.inum != inum ==> Ref(fs', s) == Ref(fs, s)
  }

  /** Between the two states inode inum got more blocks; nothing else happened:
      addresses in place stay, data blocks and stored inodes keep their bytes. */
  ghost predicate Grows(sb: Super, fs: Fs, fs': Fs, owner: map<nat, Slot>, owner': map<nat, Slot>, inum: nat) {
    && Shaped(sb, fs) && Shaped(sb, fs') && |fs'.blocks| == |fs.blocks| && inum < sb.ninodes
    && (forall b :: b in owner ==> KeptBlock(fs, fs', owner, owner', b))
    && (forall s :: IsSlot(sb, s) ==> KeptRef(sb, fs, fs', inum, s))
    && (forall i :: 0 <= i < sb.ninodes && i != inum ==> fs'.inodes[i] == fs.inodes[i])
    && fs'.inodes[inum] == fs.inodes[inum].(addrs := fs'.inodes[inum].addrs)
    && (forall i :: 0 <= i < sb.ninodes && IBlock(i) < |fs.blocks| ==> fs'.blocks[IBlock(i)] == fs.blocks[IBlock(i)])
  }

  lemma GrowsTransitive(sb: Super, a: Fs, b: Fs, c: Fs, oa: map<nat, Slot>, ob: map<nat, Slot>, oc: map<nat, Slot>, inum: nat)
    requires Grows(sb, a, b, oa, ob, inum) && Grows(sb, b, c, ob, oc, inum)
    ensures Grows(sb, a, c, oa, oc, inum)
  {
    hide Ref;
    forall x | x in oa ensures KeptBlock(a, c, oa, oc, x) {
      assert KeptBlock(a, b, oa, ob, x) && KeptBlock(b, c, ob, oc, x);
    }
    forall s | IsSlot(sb, s) ensures KeptRef(sb, a, c, inum, s) {
      assert KeptRef(sb, a, b, inum, s) && KeptRef(sb, b, c, inum, s);
    }
  }

  lemma AllocateGrows(sb: Super, fs: Fs, reserved: set<nat>, owner: map<nat, Slot>, extra: set<nat>, b: nat, inum: nat)
    requires Owned(sb, fs, reserved, owner, extra, {}) && b < sb.size && BBlock(sb, b) < |fs.blocks| && !Used(sb, fs, b)
    requires inum < sb.ninodes
    ensures Grows(sb, fs, Allocated(sb, fs, b), owner, owner, inum)
    ensures Allocated(sb, fs, b).blocks[b] == ZeroBlock() && Allocated(sb, fs, b).inodes == fs.inodes
  {
    hide Ref, Used, SetBit;
    var fs' := Allocated(sb, fs, b);
    AllocateKeepsOwned(sb, fs, reserved, owner, extra, b);
    forall c | c in owner ensures c < sb.size && c != b && c != BBlock(sb, b) {
      assert OwnerOk(sb, fs, reserved, owner, extra, {}, c);
    }
    forall s | IsSlot(sb, s) ensures KeptRef(sb, fs, fs', inum, s) {
      SameRef(sb, fs, fs', reserved, owner, extra, {}, s);
    }
    forall i | 0 <= i < sb.ninodes ensures fs'.blocks[IBlock(i)] == fs.blocks[IBlock(i)] {
      assert IBlock(i) in reserved && IBlock(i) < sb.size;
      assert IBlock(i) != BBlock(sb, b);
    }
  }

  lemma LinkAddrGrows(sb: Super, fs: Fs, owner: map<nat, Slot>, inum: nat, pos: nat, b: Word)
    requires Shaped(sb, fs) && inum < sb.ninodes && pos <= NDIRECT && fs.inodes[inum].addrs[pos] == 0
    requires b !in owner && b < |fs.blocks| && fs.blocks[b] == ZeroBlock()
    requires forall c :: c in owner ==> c < |fs.blocks|
    ensures Grows(sb, fs, WithAddr(fs, inum, pos, b), owner, owner[b := Slot(inum, pos)], inum)
  {
    var fs' := WithAddr(fs, inum, pos, b);
    assert Shaped(sb, fs');
    forall s | IsSlot(sb, s) ensures KeptRef(sb, fs, fs', inum, s) { }
  }

  lemma LinkEntryGrows(sb: Super, fs: Fs, reserved: set<nat>, owner: map<nat, Slot>, extra: set<nat>, inum: nat, j: nat, b: Word)
    requires Owned(sb, fs, reserved, owner, extra, {}) && inum < sb.ninodes && j < NINDIRECT && b !in owner
    requires fs.inodes[inum].addrs[NDIRECT] != 0 && Ref(fs, Slot(inum, NDIRECT + 1 + j)) == 0
    ensures fs.inodes[inum].addrs[NDIRECT] < |fs.blocks|
    ensures Grows(sb, fs, WithEntry(fs, fs.inodes[inum].addrs[NDIRECT], j, b), owner, owner[b := Slot(inum, NDIRECT + 1 + j)], inum)
  {
    hide SetWord, WordAt;
    var ind := fs.inodes[inum].addrs[NDIRECT];
    assert SlotOk(fs, owner, Slot(inum, NDIRECT));
    assert forall c :: c in owner ==> OwnerOk(sb, fs, reserved, owner, extra, {}, c);
    var fs' := WithEntry(fs, ind, j, b);
    assert Shaped(sb, fs');
    forall s | IsSlot(sb, s) ensures KeptRef(sb, fs, fs', inum, s) {
      assert SlotOk(fs, owner, Slot(s.inum, NDIRECT));
    }
    forall i | 0 <= i < sb.ninodes ensures fs'.blocks[IBlock(i)] == fs.blocks[IBlock(i)] {
      assert IBlock(i) in reserved && IBlock(i) < sb.size;
    }
  }

  // ----- files as byte strings

  /** Where the n-th block of a file is recorded. */
  function DataSlot(inum: nat, n: nat): (s: Slot)
    requires n < MAXFILE
    ensures s.inum == inum && s.pos < 141 && s.pos != NDIRECT
  {
    Slot(inum, if n < NDIRECT then n else n + 1)
  }

  ghost function BlockOf(sb: Super, fs: Fs, inum: nat, n: nat): Word
    requires Shaped(sb, fs) && inum < sb.ninodes && n < MAXFILE
  {
    Ref(fs, DataSlot(inum, n))
  }

  /** The file's blocks are exactly the first `count`, with no hole. */
  ghost predicate Dense(sb: Super, fs: Fs, inum: nat, count: nat)
    requires Shaped(sb, fs) && inum < sb.ninodes
  {
    && count <= MAXFILE
    && (forall n :: 0 <= n < MAXFILE ==> (BlockOf(sb, fs, inum, n) != 0 <==> n < count))
    && (fs.inodes[inum].addrs[NDIRECT] != 0 <==> NDIRECT < count)
  }

  function BlocksFor(size: nat): nat {
    (size + BSIZE - 1) / BSIZE
  }

  /** Byte k of a file's blocks. */
  ghost function FileByte(sb: Super, fs: Fs, inum: nat, k: nat): Byte
    requires Shaped(sb, fs) && inum < sb.ninodes && k < MAXFILE * BSIZE
  {
    var b := BlockOf(sb, fs, inum, k / BSIZE);
    if b < |fs.blocks| then fs.blocks[b][k % BSIZE] else 0
  }

  /** The file as the byte sequence its size delimits. */
  ghost function Content(sb: Super, fs: Fs, inum: nat): (c: seq<Byte>)
    requires Shaped(sb, fs) && inum < sb.ninodes && fs.inodes[inum].size <= MAXFILE * BSIZE
    ensures |c| == fs.inodes[inum].size
  {
    seq(fs.inodes[inum].size, k requires 0 <= k < fs.inodes[inum].size => FileByte(sb, fs, inum, k))
  }

  lemma GrowsKeepsByte(sb: Super, fs: Fs, fs': Fs, reserved: set<nat>, owner: map<nat, Slot>, owner': map<nat, Slot>, extra: set<nat>, inum: nat, i: nat, k: nat)
    requires Owned(sb, fs, reserved, owner, extra, {}) && Grows(sb, fs, fs', owner, owner', inum)
    requires i < sb.ninodes && k < MAXFILE * BSIZE && BlockOf(sb, fs, i, k / BSIZE) != 0
    ensures FileByte(sb, fs', i, k) == FileByte(sb, fs, i, k)
  {
    hide Ref;
    var s := DataSlot(i, k / BSIZE);
    assert SlotOk(fs, owner, s) && KeptRef(sb, fs, fs', inum, s);
    assert KeptBlock(fs, fs', owner, owner', Ref(fs, s));
  }

  /** Every slot but one holds what it held. */
  ghost predicate OnlyRef(sb: Super, fs: Fs, fs': Fs, at: Slot)
    requires Shaped(sb, fs) && Shaped(sb, fs')
  {
    forall s :: IsSlot(sb, s) && s != at ==> Ref(fs', s) == Ref(fs, s)
  }

  lemma AddrStep(sb: Super, fs: Fs, reserved: set<nat>, owner: map<nat, Slot>, inum: nat, pos: nat, b: nat)
    requires Owned(sb, fs, reserved, owner, {}, {}) && b < sb.size && BBlock(sb, b) < |fs.blocks| && !Used(sb, fs, b)
    requires inum < sb.ninodes && pos <= NDIRECT && fs.inodes[inum].addrs[pos] == 0
    ensures b < WORD_LIMIT && b != 0 && b !in owner && b < |fs.blocks|
    ensures var fs' := WithAddr(Allocated(sb, fs, b), inum, pos, b);
            && Owned(sb, fs', reserved, owner[b := Slot(inum, pos)], {}, {})
            && Grows(sb, fs, fs', owner, owner[b := Slot(inum, pos)], inum)
            && OnlyRef(sb, fs, fs', Slot(inum, pos)) && Ref(fs', Slot(inum, pos)) == b
  {
    hide Used, SetBit, Grows, BitOk;
    var fs1 := Allocated(sb, fs, b);
    AllocateKeepsOwned(sb, fs, reserved, owner, {}, b);
    AllocateGrows(sb, fs, reserved, owner, {}, b, inum);
    assert {} + {b} == {b} && {b} - {b} == {};
    LinkAddr(sb, fs1, reserved, owner, {b}, inum, pos, b);
    assert forall c :: c in owner ==> OwnerOk(sb, fs, reserved, owner, {}, {}, c);
    LinkAddrGrows(sb, fs1, owner, inum, pos, b);
    var fs' := WithAddr(fs1, inum, pos, b);
    GrowsTransitive(sb, fs, fs1, fs', owner, owner, owner[b := Slot(inum, pos)], inum);
    forall s | IsSlot(sb, s) && s != Slot(inum, pos) ensures Ref(fs', s) == Ref(fs, s) {
      SameRefAllocated(sb, fs, reserved, owner, b, s);
    }
  }

  lemma SameRefAllocated(sb: Super, fs: Fs, reserved: set<nat>, owner: map<nat, Slot>, b: nat, s: Slot)
    requires Owned(sb, fs, reserved, owner, {}, {}) && b < sb.size && BBlock(sb, b) < |fs.blocks| && !Used(sb, fs, b)
    requires IsSlot(sb, s)
    ensures Ref(Allocated(sb, fs, b), s) == Ref(fs, s)
  {
    hide Ref, Used, SetBit;
    AllocateKeepsOwned(sb, fs, reserved, owner, {}, b);
    forall c | c in owner ensures c < sb.size && c != b && c != BBlock(sb, b) {
      assert OwnerOk(sb, fs, reserved, owner, {}, {}, c);
    }
    SameRef(sb, fs, Allocated(sb, fs, b), reserved, owner, {}, {}, s);
  }

  lemma EntryStep(sb: Super, fs: Fs, reserved: set<nat>, owner: map<nat, Slot>, inum: nat, j: nat, b: nat)
    requires Owned(sb, fs, reserved, owner, {}, {}) && b < sb.size && BBlock(sb, b) < |fs.blocks| && !Used(sb, fs, b)
    requires inum < sb.ninodes && j < NINDIRECT && fs.inodes[inum].addrs[NDIRECT] != 0
    requires Ref(fs, Slot(inum, NDIRECT + 1 + j)) == 0
    ensures b < WORD_LIMIT && b != 0 && b !in owner && b < |fs.blocks|
    ensures fs.inodes[inum].addrs[NDIRECT] < |fs.blocks| && fs.inodes[inum].addrs[NDIRECT] != b
    ensures var at := Slot(inum, NDIRECT + 1 + j);
            var fs' := WithEntry(Allocated(sb, fs, b), fs.inodes[inum].addrs[NDIRECT], j, b);
            && Owned(sb, fs', reserved, owner[b := at], {}, {})
            && Grows(sb, fs, fs', owner, owner[b := at], inum)
            && OnlyRef(sb, fs, fs', at) && Ref(fs', at) == b
  {
    hide Used, SetBit, Grows, BitOk, SetWord, WordAt;
    var fs1, at := Allocated(sb, fs, b), Slot(inum, NDIRECT + 1 + j);
    AllocateKeepsOwned(sb, fs, reserved, owner, {}, b);
    AllocateGrows(sb, fs, reserved, owner, {}, b, inum);
    assert {} + {b} == {b} && {b} - {b} == {};
    SameRefAllocated(sb, fs, reserved, owner, b, at);
    assert SlotOk(fs, owner, Slot(inum, NDIRECT));
    LinkEntry(sb, fs1, reserved, owner, {b}, inum, j, b);
    LinkEntryGrows(sb, fs1, reserved, owner, {b}, inum, j, b);
    var fs' := WithEntry(fs1, fs.inodes[inum].addrs[NDIRECT], j, b);
    GrowsTransitive(sb, fs, fs1, fs', owner, owner, owner[b := at], inum);
    forall s | IsSlot(sb, s) && s != at ensures Ref(fs', s) == Ref(fs, s) {
      SameRefAllocated(sb, fs, reserved, owner, b, s);
      assert SlotOk(fs1, owner, Slot(s.inum, NDIRECT));
    }
  }

  /** Of the file's blocks only number bn may be new. */
  ghost predicate OnlyNewBlock(sb: Super, fs: Fs, fs': Fs, inum: nat, bn: nat)
    requires Shaped(sb, fs) && Shaped(sb, fs') && inum < sb.ninodes
  {
    && (forall n :: 0 <= n < MAXFILE && n != bn ==> BlockOf(sb, fs', inum, n) == BlockOf(sb, fs, inum, n))
    && (fs'.inodes[inum].addrs[NDIRECT] != 0 <==> fs.inodes[inum].addrs[NDIRECT] != 0 || NDIRECT <= bn)
  }

  /** bmap inside or at the end of a dense file keeps it dense. */
  lemma DenseGrows(sb: Super, fs: Fs, fs': Fs, inum: nat, count: nat, bn: nat)
    requires Shaped(sb, fs) && Shaped(sb, fs') && inum < sb.ninodes && Dense(sb, fs, inum, count)
    requires bn < MAXFILE && bn <= count && OnlyNewBlock(sb, fs, fs', inum, bn) && BlockOf(sb, fs', inum, bn) != 0
    ensures Dense(sb, fs', inum, if bn < count then count else count + 1)
  {
    hide Ref;
  }

  // ----- writing file data

  /** Storing new data in block bn of a file changes those bytes and nothing else
      of any file. */
  lemma DataWrite(sb: Super, fs: Fs, reserved: set<nat>, owner: map<nat, Slot>, inum: nat, bn: nat, data: Block)
    requires Owned(sb, fs, reserved, owner, {}, {}) && inum < sb.ninodes && bn < MAXFILE && BlockOf(sb, fs, inum, bn) != 0
    ensures var c := BlockOf(sb, fs, inum, bn);
            && c < |fs.blocks| && c in owner && owner[c] == DataSlot(inum, bn)
            && Owned(sb, fs.(blocks := fs.blocks[c := data]), reserved, owner, {}, {})
            && forall i :: 0 <= i < sb.ninodes && IBlock(i) < |fs.blocks| ==> IBlock(i) != c
  {
    hide Used, Ref;
    var c := BlockOf(sb, fs, inum, bn);
    assert SlotOk(fs, owner, DataSlot(inum, bn));
    assert OwnerOk(sb, fs, reserved, owner, {}, {}, c);
    forall b | 0 <= b < sb.size ensures BBlock(sb, b) != c { assert BBlock(sb, b) in reserved; }
    forall i | 0 <= i < sb.ninodes ensures IBlock(i) != c { assert IBlock(i) in reserved; }
    WriteKeepsOwned(sb, fs, reserved, owner, {}, {}, c, data);
  }

  lemma DataWriteRefs(sb: Super, fs: Fs, reserved: set<nat>, owner: map<nat, Slot>, c: nat, data: Block, s: Slot)
    requires Owned(sb, fs, reserved, owner, {}, {}) && c in owner && owner[c].pos != NDIRECT && c < |fs.blocks|
    requires IsSlot(sb, s)
    ensures Ref(fs.(blocks := fs.blocks[c := data]), s) == Ref(fs, s)
  {
    SameRef(sb, fs, fs.(blocks := fs.blocks[c := data]), reserved, owner, {}, {}, s);
  }

  lemma DataWriteByte(sb: Super, fs: Fs, reserved: set<nat>, owner: map<nat, Slot>, inum: nat, bn: nat, data: Block, i: nat, k: nat)
    requires Owned(sb, fs, reserved, owner, {}, {}) && inum < sb.ninodes && bn < MAXFILE && BlockOf(sb, fs, inum, bn) != 0
    requires BlockOf(sb, fs, inum, bn) < |fs.blocks|
    requires i < sb.ninodes && k < MAXFILE * BSIZE && BlockOf(sb, fs, i, k / BSIZE) != 0
    ensures var fs' := fs.(blocks := fs.blocks[BlockOf(sb, fs, inum, bn) := data]);
            && Shaped(sb, fs')
            && FileByte(sb, fs', i, k) == if i == inum && k / BSIZE == bn then data[k % BSIZE] else FileByte(sb, fs, i, k)
  {
    hide Used, Ref;
    var c := BlockOf(sb, fs, inum, bn);
    DataWrite(sb, fs, reserved, owner, inum, bn, data);
    DataWriteRefs(sb, fs, reserved, owner, c, data, DataSlot(i, k / BSIZE));
    assert SlotOk(fs, owner, DataSlot(inum, bn)) && SlotOk(fs, owner, DataSlot(i, k / BSIZE));
    assert OwnerOk(sb, fs, reserved, owner, {}, {}, BlockOf(sb, fs, i, k / BSIZE));
  }

  // ----- the stored copy of an inode

  /** The 16 words of a dinode. */
  function InodeWord(ino: Inode, j: nat): Word
    requires |ino.addrs| == NDIRECT + 1 && j < 16
  {
    if j == 0 then ino.kind + 0x1_0000 * ino.major
    else if j == 1 then ino.minor + 0x1_0000 * ino.nlink
    else if j == 2 then ino.size
    else ino.addrs[j - 3]
  }

  /** The first k words of ino stored in place `slot` of an inode block. */
  function PutInode(b: Block, slot: nat, ino: Inode, k: nat): Block
    requires slot < IPB && |ino.addrs| == NDIRECT + 1 && k <= 16
  {
    if k == 0 then b else SetWord(PutInode(b, slot, ino, k - 1), 16 * slot + k - 1, InodeWord(ino, k - 1))
  }

  function DinodeAt(b: Block, slot: nat): Inode
    requires slot < IPB
  {
    var w0, w1 := WordAt(b, 16 * slot), WordAt(b, 16 * slot + 1);
    Inode(w0 % 0x1_0000, w0 / 0x1_0000, w1 % 0x1_0000, w1 / 0x1_0000, WordAt(b, 16 * slot + 2),
          seq<Word>(NDIRECT + 1, i requires 0 <= i < NDIRECT + 1 => WordAt(b, 16 * slot + 3 + i)))
  }

  lemma {:induction false} PutInodeWords(b: Block, slot: nat, ino: Inode, k: nat, w: nat)
    requires slot < IPB && |ino.addrs| == NDIRECT + 1 && k <= 16 && w < WORDS
    ensures WordAt(PutInode(b, slot, ino, k), w) ==
            if 16 * slot <= w < 16 * slot + k then InodeWord(ino, w - 16 * slot) else WordAt(b, w)
  {
    hide SetWord, WordAt, InodeWord;
    if k > 0 { PutInodeWords(b, slot, ino, k - 1, w); }
  }

  /** Reading back an inode yields what iupdate stored, next to its neighbours. */
  lemma DinodeRoundTrip(b: Block, slot: nat, ino: Inode, other: nat)
    requires slot < IPB && other < IPB && |ino.addrs| == NDIRECT + 1
    ensures DinodeAt(PutInode(b, slot, ino, 16), other) == if other == slot then ino else DinodeAt(b, other)
  {
    hide WordAt, PutInode;
    var b' := PutInode(b, slot, ino, 16);
    forall w | 0 <= w < WORDS
      ensures WordAt(b', w) == if 16 * slot <= w < 16 * slot + 16 then InodeWord(ino, w - 16 * slot) else WordAt(b, w)
    {
      PutInodeWords(b, slot, ino, 16, w);
    }
    if other == slot {
      assert DinodeAt(b', other).addrs == ino.addrs;
    } else {
      assert DinodeAt(b', other).addrs == DinodeAt(b, other).addrs;
    }
  }

  ghost predicate Synced(sb: Super, fs: Fs, i: nat)
    requires Shaped(sb, fs) && i < sb.ninodes
  {
    IBlock(i) < |fs.blocks| && DinodeAt(fs.blocks[IBlock(i)], i % IPB) == fs.inodes[i]
  }

  /** A file at rest: dense, within the maximum, its inode stored on disk. */
  ghost predicate FileOk(sb: Super, fs: Fs, i: nat)
    requires Shaped(sb, fs) && i < sb.ninodes
  {
    && fs.inodes[i].size <= MAXFILE * BSIZE && Dense(sb, fs, i, BlocksFor(fs.inodes[i].size)) && Synced(sb, fs, i)
  }

  ghost predicate FsOk(sb: Super, fs: Fs, reserved: set<nat>, owner: map<nat, Slot>) {
    && Owned(sb, fs, reserved, owner, {}, {})
    && forall i :: 0 <= i < sb.ninodes ==> FileOk(sb, fs, i)
  }
}
