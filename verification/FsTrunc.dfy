/** What itrunc does: it gives back exactly the blocks of one file. */
module FsTrunc {
  import opened Types
  import opened Blocks
  import opened FsState
  import opened FsWrite

  /** Only the free map differs. */
  ghost predicate MapOnly(sb: Super, fs0: Fs, fs: Fs) {
    |fs.blocks| == |fs0.blocks| && forall c :: 0 <= c < |fs0.blocks| && !IsMapBlock(sb, c) ==> fs.blocks[c] == fs0.blocks[c]
  }

  lemma MapOnlyTwice(sb: Super, fs0: Fs, fs1: Fs, fs2: Fs)
    requires MapOnly(sb, fs0, fs1) && MapOnly(sb, fs1, fs2)
    ensures MapOnly(sb, fs0, fs2)
  {
    hide IsMapBlock;
  }

  lemma FreeIsMapOnly(sb: Super, fs0: Fs, fs: Fs, b: nat)
    requires MapOnly(sb, fs0, fs) && b < sb.size && BBlock(sb, b) < |fs.blocks|
    ensures MapOnly(sb, fs0, SetUsed(sb, fs, b, false))
  {
    assert IsMapBlock(sb, BBlock(sb, b));
  }

  lemma OwnedIsNoMapBlock(sb: Super, fs: Fs, reserved: set<nat>, owner: map<nat, Slot>, extra: set<nat>, dead: set<Slot>, c: nat)
    requires Owned(sb, fs, reserved, owner, extra, dead) && (c in owner || c in extra)
    ensures c < sb.size && c < |fs.blocks| && !IsMapBlock(sb, c) && c !in reserved
  {
    if c in owner { assert OwnerOk(sb, fs, reserved, owner, extra, dead, c); }
  }

  /** One direct block: bfree finds its bit set, and zeroing the address settles it. */
  lemma DropDirect(sb: Super, fs: Fs, reserved: set<nat>, owner: map<nat, Slot>, inum: nat, pos: nat)
    requires Owned(sb, fs, reserved, owner, {}, {}) && inum < sb.ninodes && pos < NDIRECT && fs.inodes[inum].addrs[pos] != 0
    ensures var b := fs.inodes[inum].addrs[pos];
            && b < sb.size && BBlock(sb, b) < |fs.blocks| && Used(sb, fs, b)
            && Owned(sb, WithAddr(SetUsed(sb, fs, b, false), inum, pos, 0), reserved, owner - {b}, {}, {})
  {
    hide Used, SetBit, BitOk;
    var b, dead := fs.inodes[inum].addrs[pos], Dropped(inum, pos);
    assert SlotOk(fs, owner, Slot(inum, pos));
    assert forall c :: c in owner ==> OwnerOk(sb, fs, reserved, owner, {}, {}, c);
    DetachKeepsOwned(sb, fs, reserved, owner, inum, pos);
    assert Loose(owner, dead) == {b};
    assert Detached(owner, dead) == owner - {b};
    FreeKeepsOwned(sb, fs, reserved, owner - {b}, {b}, dead, b);
    assert {b} - {b} == {};
    ClearAddrKeepsOwned(sb, SetUsed(sb, fs, b, false), reserved, owner - {b}, {}, inum, pos);
  }

  /** Entry j of the indirect block of inum. */
  ghost function Entry(fs: Fs, ind: nat, j: nat): Word
    requires ind < |fs.blocks| && j < NINDIRECT
  {
    WordAt(fs.blocks[ind], j)
  }

  ghost predicate IsEntry(fs: Fs, ind: nat, j: nat, b: nat)
    requires ind < |fs.blocks|
  {
    j < NINDIRECT && Entry(fs, ind, j) == b
  }

  /** The blocks that hang off the indirect address: the indirect block and the
      non-zero entries, all different. */
  lemma LooseBlocks(sb: Super, fs: Fs, reserved: set<nat>, owner: map<nat, Slot>, inum: nat, b: nat)
    requires Owned(sb, fs, reserved, owner, {}, {}) && inum < sb.ninodes && fs.inodes[inum].addrs[NDIRECT] != 0
    ensures var ind := fs.inodes[inum].addrs[NDIRECT];
            && ind < |fs.blocks|
            && (b in Loose(owner, Dropped(inum, NDIRECT)) <==> b == ind || (b != 0 && exists j :: IsEntry(fs, ind, j, b)))
  {
    hide WordAt;
    var ind, dead := fs.inodes[inum].addrs[NDIRECT], Dropped(inum, NDIRECT);
    assert SlotOk(fs, owner, Slot(inum, NDIRECT));
    assert OwnerOk(sb, fs, reserved, owner, {}, {}, ind);
    assert Slot(inum, NDIRECT) in dead;
    if b in Loose(owner, dead) {
      assert OwnerOk(sb, fs, reserved, owner, {}, {}, b);
      if b != ind { assert IsEntry(fs, ind, owner[b].pos - NDIRECT - 1, b); }
    }
    if b != 0 && exists j :: IsEntry(fs, ind, j, b) {
      var j: nat :| IsEntry(fs, ind, j, b);
      assert SlotOk(fs, owner, Slot(inum, NDIRECT + 1 + j));
      assert Slot(inum, NDIRECT + 1 + j) in dead;
    }
  }

  lemma EntriesDiffer(sb: Super, fs: Fs, reserved: set<nat>, owner: map<nat, Slot>, inum: nat, j: nat, k: nat)
    requires Owned(sb, fs, reserved, owner, {}, {}) && inum < sb.ninodes && fs.inodes[inum].addrs[NDIRECT] != 0
    requires j < NINDIRECT && k < NINDIRECT && j != k
    ensures var ind := fs.inodes[inum].addrs[NDIRECT];
            ind < |fs.blocks| && (Entry(fs, ind, j) != 0 ==> Entry(fs, ind, j) != Entry(fs, ind, k) && Entry(fs, ind, j) != ind)
  {
    hide WordAt;
    var ind := fs.inodes[inum].addrs[NDIRECT];
    assert SlotOk(fs, owner, Slot(inum, NDIRECT));
    assert OwnerOk(sb, fs, reserved, owner, {}, {}, ind);
    SlotsDisjoint(sb, fs, reserved, owner, Slot(inum, NDIRECT + 1 + j), Slot(inum, NDIRECT + 1 + k));
    SlotsDisjoint(sb, fs, reserved, owner, Slot(inum, NDIRECT + 1 + j), Slot(inum, NDIRECT));
  }

  /** A file emptied: no address left, size zero, same inode otherwise. */
  function Emptied(ino: Inode): Inode {
    ino.(size := 0, addrs := seq(NDIRECT + 1, i => 0))
  }

  lemma EmptiedKeeps(ino: Inode)
    ensures var e := Emptied(ino);
            && e.kind == ino.kind && e.major == ino.major && e.minor == ino.minor && e.nlink == ino.nlink
            && e.size == 0 && |e.addrs| == 13 && forall j :: 0 <= j < 13 ==> e.addrs[j] == 0
  {
  }

  lemma OtherFile(sb: Super, fs0: Fs, fs: Fs, reserved: set<nat>, owner0: map<nat, Slot>, inum: nat, i: nat)
    requires Owned(sb, fs0, reserved, owner0, {}, {}) && Shaped(sb, fs) && MapOnly(sb, fs0, fs)
    requires i < sb.ninodes && fs.inodes[i] == fs0.inodes[i] && FileOk(sb, fs0, i)
    ensures FileOk(sb, fs, i) && Content(sb, fs, i) == Content(sb, fs0, i)
  {
    hide DinodeAt, BitOk, Used, WordAt;
    assert IBlock(i) in reserved && !IsMapBlock(sb, IBlock(i));
    forall p | 0 <= p < 141 ensures Ref(fs, Slot(i, p)) == Ref(fs0, Slot(i, p)) {
      assert SlotOk(fs0, owner0, Slot(i, NDIRECT));
      if fs0.inodes[i].addrs[NDIRECT] != 0 {
        OwnedIsNoMapBlock(sb, fs0, reserved, owner0, {}, {}, fs0.inodes[i].addrs[NDIRECT]);
      }
    }
    forall n | 0 <= n < MAXFILE ensures BlockOf(sb, fs, i, n) == BlockOf(sb, fs0, i, n) { }
    forall k | 0 <= k < fs.inodes[i].size ensures FileByte(sb, fs, i, k) == FileByte(sb, fs0, i, k) {
      assert k / BSIZE < BlocksFor(fs.inodes[i].size);
      assert SlotOk(fs0, owner0, DataSlot(i, k / BSIZE));
      OwnedIsNoMapBlock(sb, fs0, reserved, owner0, {}, {}, BlockOf(sb, fs0, i, k / BSIZE));
    }
  }

  /** itrunc as a whole. */
  lemma TruncFinishes(sb: Super, fs0: Fs, fs: Fs, reserved: set<nat>, owner0: map<nat, Slot>, owner: map<nat, Slot>, inum: nat)
    requires FsOk(sb, fs0, reserved, owner0) && Owned(sb, fs, reserved, owner, {}, {}) && inum < sb.ninodes
    requires MapOnly(sb, fs0, fs) && fs.inodes == fs0.inodes[inum := Emptied(fs0.inodes[inum])]
    ensures IBlock(inum) < |fs.blocks|
    ensures var fs' := Stored(fs, inum);
            && FsOk(sb, fs', reserved, owner) && Content(sb, fs', inum) == []
            && forall i :: 0 <= i < sb.ninodes && i != inum ==>
                 FileOk(sb, fs0, i) && FileOk(sb, fs', i) && Content(sb, fs', i) == Content(sb, fs0, i)
  {
    hide Owned, Ref, Content, DinodeAt, PutInode, Dense;
    OwnedShaped(sb, fs0, reserved, owner0);
    OwnedShaped(sb, fs, reserved, owner);
    InodeBlockIn(sb, fs, reserved, owner, inum);
    StoredKeepsOwned(sb, fs, reserved, owner, inum);
    EmptyIsDense(sb, fs, inum);
    forall i | 0 <= i < sb.ninodes
      ensures FileOk(sb, Stored(fs, inum), i)
      ensures i != inum ==> FileOk(sb, fs0, i) && Content(sb, Stored(fs, inum), i) == Content(sb, fs0, i)
    {
      assert FileOk(sb, fs0, i);
      if i != inum { OtherFile(sb, fs0, fs, reserved, owner0, inum, i); }
      StoredContent(sb, fs, reserved, owner, inum, i);
      StoredSynced(sb, fs, inum, i);
    }
  }

  lemma EmptyIsDense(sb: Super, fs: Fs, inum: nat)
    requires Shaped(sb, fs) && inum < sb.ninodes && fs.inodes[inum] == Emptied(fs.inodes[inum])
    ensures Dense(sb, fs, inum, BlocksFor(0))
  {
  }
}
