/** The functions of fs.c that allocate blocks and move file data, on the
    logical contents of the disk.  A `None` or false result stands for a panic. */
module Inodes {
  import opened Types
  import opened Blocks
  import opened FsState
  import opened FsLogged
  import opened FsTrunc
  import opened FsWrite

  /** Everything newly logged is a block of the free map. */
  ghost predicate MapLogged(sb: Super, before: set<nat>, after: set<nat>) {
    before <= after && forall c :: c in after && c !in before ==> IsMapBlock(sb, c)
  }

  const T_DEV := 3

  /** Wrote(n): n bytes done.  Refused: -1.  ToDevice: the device switch takes
      over.  Panicked: no block left. */
  datatype WriteResult = Wrote(n: nat) | Refused | ToDevice | Panicked

  datatype ReadResult = Read(data: seq<Byte>) | ReadRefused | ReadDevice | ReadPanicked

  class FileSystem {
    const sb: Super
    ghost const reserved: set<nat>
    var blocks: seq<Block>
    var inodes: seq<Inode>
    ghost var owner: map<nat, Slot>
    /** The buffers handed to log_write so far in the current transaction. */
    var writes: seq<Write>

    constructor (sb: Super, blocks: seq<Block>, inodes: seq<Inode>, ghost reserved: set<nat>, ghost owner: map<nat, Slot>)
      ensures this.sb == sb && this.reserved == reserved && Abs() == Fs(blocks, inodes) && this.owner == owner && writes == []
    {
      this.sb, this.reserved, this.blocks, this.inodes, this.owner, writes := sb, reserved, blocks, inodes, owner, [];
    }

    ghost function Abs(): Fs
      reads this
    {
      Fs(blocks, inodes)
    }

    ghost predicate Owns()
      reads this
    {
      Owned(sb, Abs(), reserved, owner, {}, {})
    }

    ghost function Logged(): set<nat>
      reads this`writes
    {
      Sectors(writes)
    }

    /** log_write of a buffer that was just changed. */
    method LogWrite(c: nat, data: Block)
      requires c < |blocks|
      modifies this`blocks, this`writes
      ensures blocks == old(blocks)[c := data] && Logged() == old(Logged()) + {c}
      ensures Recorded(old(blocks), old(writes), blocks, writes)
    {
      blocks := blocks[c := data];
      writes := writes + [Write(c, data)];
      SectorsGrow(old(writes), Write(c, data));
      RecordedOne(old(blocks), old(writes), Write(c, data));
    }

    /** The lowest block whose bit is clear. */
    ghost predicate FirstFree(fs: Fs, b: nat) {
      && b < sb.size && BBlock(sb, b) < |fs.blocks| && !Used(sb, fs, b)
      && forall c :: 0 <= c < b ==> BBlock(sb, c) < |fs.blocks| && Used(sb, fs, c)
    }

    ghost predicate DiskFull(fs: Fs) {
      forall c :: 0 <= c < sb.size ==> BBlock(sb, c) < |fs.blocks| && Used(sb, fs, c)
    }

    /** balloc's scan: bitmap block by bitmap block, bit by bit. */
    method FindFree() returns (r: Option<nat>)
      requires LayoutOk(sb, reserved) && sb.size <= |blocks|
      ensures match r case Some(b) => FirstFree(Abs(), b) case None => DiskFull(Abs())
    {
      hide Used, BitAt;
      var b := 0;
      while b < sb.size
        invariant b % BPB == 0
        invariant forall c :: 0 <= c < b && c < sb.size ==> BBlock(sb, c) < |blocks| && Used(sb, Abs(), c)
      {
        assert BBlock(sb, b) < sb.size;
        var bp := blocks[BBlock(sb, b)];
        var bi := 0;
        while bi < BPB && b + bi < sb.size
          invariant 0 <= bi <= BPB
          invariant forall c :: 0 <= c < b + bi && c < sb.size ==> BBlock(sb, c) < |blocks| && Used(sb, Abs(), c)
        {
          assert (b + bi) % BPB == bi && (b + bi) / BPB == b / BPB;
          assert BBlock(sb, b + bi) == BBlock(sb, b);
          UsedIsBit(sb, Abs(), b + bi);
          if !BitAt(bp, bi) { return Some(b + bi); }
          bi := bi + 1;
        }
        b := b + BPB;
      }
      return None;
    }

    /** balloc: mark the lowest free block used and zero it. */
    method Balloc() returns (r: Option<nat>)
      requires LayoutOk(sb, reserved) && sb.size <= |blocks|
      modifies this`blocks, this`writes
      ensures match r
              case Some(b) =>
                && old(FirstFree(Abs(), b)) && b < |old(blocks)| && Abs() == Allocated(sb, old(Abs()), b)
                && Logged() == old(Logged()) + {BBlock(sb, b), b}
              case None => old(DiskFull(Abs())) && blocks == old(blocks) && writes == old(writes)
      ensures Recorded(old(blocks), old(writes), blocks, writes)
    {
      hide Used, BitAt, Recorded, Sectors;
      RecordedNone(blocks, writes);
      r := FindFree();
      if r.Some? {
        var b := r.value;
        LogWrite(BBlock(sb, b), SetBit(blocks[BBlock(sb, b)], b % BPB, true));
        ghost var mid, midWrites := blocks, writes;
        LogWrite(b, ZeroBlock());
        RecordedTwice(old(blocks), old(writes), mid, midWrites, blocks, writes);
      }
    }

    /** bfree; false is the panic "freeing free block". */
    method Bfree(b: nat) returns (ok: bool)
      requires b < sb.size && BBlock(sb, b) < |blocks|
      modifies this`blocks, this`writes
      ensures ok <==> old(Used(sb, Abs(), b))
      ensures ok ==> Abs() == SetUsed(sb, old(Abs()), b, false) && Logged() == old(Logged()) + {BBlock(sb, b)}
      ensures !ok ==> blocks == old(blocks) && writes == old(writes)
      ensures Recorded(old(blocks), old(writes), blocks, writes)
    {
      hide Recorded, Sectors;
      RecordedNone(blocks, writes);
      var bp := blocks[BBlock(sb, b)];
      if !BitAt(bp, b % BPB) { return false; }
      LogWrite(BBlock(sb, b), SetBit(bp, b % BPB, false));
      return true;
    }

    /** balloc into a direct address or the indirect-block address of an inode. */
    method AllocAddr(inum: nat, pos: nat, ghost bn: nat) returns (r: Option<Word>)
      requires Owns() && inum < sb.ninodes && pos <= NDIRECT && inodes[inum].addrs[pos] == 0
      requires bn < MAXFILE && (pos == bn || pos == NDIRECT)
      modifies this`blocks, this`inodes, this`owner, this`writes
      ensures Owns() && Grows(sb, old(Abs()), Abs(), old(owner), owner, inum)
      ensures Recorded(old(blocks), old(writes), blocks, writes) && BmapLogs(sb, old(Logged()), Logged(), old(owner), owner, inum, bn)
      ensures match r
              case Some(b) => b != 0 && Ref(Abs(), Slot(inum, pos)) == b && OnlyRef(sb, old(Abs()), Abs(), Slot(inum, pos))
              case None => old(DiskFull(Abs())) && Abs() == old(Abs()) && owner == old(owner) && writes == old(writes)
    {
      hide Used, SetBit, Ref, SlotOk, OwnerOk, BitOk, KeptRef, KeptBlock, BmapLogs, Recorded, Sectors;
      OwnerFacts(sb, Abs(), reserved, owner, inum);
      BmapLogsNothing(sb, Logged(), owner, inum, bn);
      var found := Balloc();
      if found.None? { SelfGrows(sb, Abs(), owner, inum, reserved); return None; }
      var b := found.value;
      FreshBlock(sb, old(Abs()), reserved, owner, b);
      AllocLogs(sb, old(Logged()), owner, b, inum, bn, pos, b);
      assert Logged() == old(Logged()) + {BBlock(sb, b), b} + (if pos >= NDIRECT then {b} else {});
      AddrStep(sb, old(Abs()), reserved, owner, inum, pos, b);
      inodes := inodes[inum := inodes[inum].(addrs := inodes[inum].addrs[pos := b])];
      owner := owner[b := Slot(inum, pos)];
      return Some(b);
    }

    /** balloc into an entry of the indirect block. */
    method AllocEntry(inum: nat, j: nat) returns (r: Option<Word>)
      requires Owns() && inum < sb.ninodes && j < NINDIRECT && inodes[inum].addrs[NDIRECT] != 0
      requires Ref(Abs(), Slot(inum, NDIRECT + 1 + j)) == 0
      modifies this`blocks, this`owner, this`writes
      ensures Owns() && Grows(sb, old(Abs()), Abs(), old(owner), owner, inum)
      ensures Recorded(old(blocks), old(writes), blocks, writes) && BmapLogs(sb, old(Logged()), Logged(), old(owner), owner, inum, NDIRECT + j)
      ensures match r
              case Some(b) => b != 0 && Ref(Abs(), Slot(inum, NDIRECT + 1 + j)) == b
                              && OnlyRef(sb, old(Abs()), Abs(), Slot(inum, NDIRECT + 1 + j))
              case None => old(DiskFull(Abs())) && Abs() == old(Abs()) && owner == old(owner) && writes == old(writes)
    {
      hide Used, SetBit, Ref, OwnerOk, BitOk, KeptRef, KeptBlock, SetWord, WordAt, BmapLogs, Recorded, Sectors;
      IndirectOwned(sb, Abs(), reserved, owner, inum);
      OwnerFacts(sb, Abs(), reserved, owner, inum);
      BmapLogsNothing(sb, Logged(), owner, inum, NDIRECT + j);
      var found := Balloc();
      if found.None? { SelfGrows(sb, Abs(), owner, inum, reserved); return None; }
      var b, ind := found.value, inodes[inum].addrs[NDIRECT];
      FreshBlock(sb, old(Abs()), reserved, owner, b);
      AllocLogs(sb, old(Logged()), owner, b, inum, NDIRECT + j, NDIRECT + 1 + j, ind);
      EntryStep(sb, old(Abs()), reserved, owner, inum, j, b);
      ghost var mid, midWrites := blocks, writes;
      LogWrite(ind, SetWord(blocks[ind], j, b));
      RecordedTwice(old(blocks), old(writes), mid, midWrites, blocks, writes);
      owner := owner[b := Slot(inum, NDIRECT + 1 + j)];
      return Some(b);
    }

    /** bmap for the blocks an inode names itself. */
    method BmapDirect(inum: nat, bn: nat) returns (r: Option<Word>)
      requires Owns() && inum < sb.ninodes && bn < NDIRECT
      modifies this`blocks, this`inodes, this`owner, this`writes
      ensures Owns() && Grows(sb, old(Abs()), Abs(), old(owner), owner, inum)
      ensures Recorded(old(blocks), old(writes), blocks, writes) && BmapLogs(sb, old(Logged()), Logged(), old(owner), owner, inum, bn)
      ensures r.Some? ==> r.value != 0 && r.value == BlockOf(sb, Abs(), inum, bn)
                          && OnlyNewBlock(sb, old(Abs()), Abs(), inum, bn)
      ensures r.None? ==> DiskFull(Abs())
      ensures BlockOf(sb, old(Abs()), inum, bn) != 0 ==>
                r.Some? && Abs() == old(Abs()) && owner == old(owner) && writes == old(writes)
    {
      hide Used, SlotOk, OwnerOk, BitOk, KeptRef, KeptBlock, Grows, DiskFull, BmapLogs, Recorded, Sectors;
      RecordedNone(blocks, writes);
      BmapLogsNothing(sb, Logged(), owner, inum, bn);
      var addr := inodes[inum].addrs[bn];
      if addr != 0 {
        SelfGrows(sb, Abs(), owner, inum, reserved);
        return Some(addr);
      }
      r := AllocAddr(inum, bn, bn);
      if r.Some? { assert Ref(Abs(), Slot(inum, NDIRECT)) == Ref(old(Abs()), Slot(inum, NDIRECT)); }
    }

    /** bmap for the blocks listed in the indirect block. */
    method BmapIndirect(inum: nat, j: nat) returns (r: Option<Word>)
      requires Owns() && inum < sb.ninodes && j < NINDIRECT
      modifies this`blocks, this`inodes, this`owner, this`writes
      ensures Owns() && Grows(sb, old(Abs()), Abs(), old(owner), owner, inum)
      ensures Recorded(old(blocks), old(writes), blocks, writes) && BmapLogs(sb, old(Logged()), Logged(), old(owner), owner, inum, NDIRECT + j)
      ensures r.Some? ==> r.value != 0 && r.value == BlockOf(sb, Abs(), inum, NDIRECT + j)
                          && OnlyNewBlock(sb, old(Abs()), Abs(), inum, NDIRECT + j)
      ensures r.None? ==> DiskFull(Abs())
      ensures BlockOf(sb, old(Abs()), inum, NDIRECT + j) != 0 ==>
                r.Some? && Abs() == old(Abs()) && owner == old(owner) && writes == old(writes)
    {
      hide Used, SlotOk, OwnerOk, BitOk, KeptRef, KeptBlock, Grows, DiskFull, WordAt, BmapLogs, Recorded, Sectors;
      SelfGrows(sb, Abs(), owner, inum, reserved);
      BmapLogsNothing(sb, Logged(), owner, inum, NDIRECT + j);
      RecordedNone(blocks, writes);
      if inodes[inum].addrs[NDIRECT] == 0 {
        var ind := AllocAddr(inum, NDIRECT, NDIRECT + j);
        if ind.None? { return None; }
      }
      ghost var mid, midOwner, midWrites := Abs(), owner, writes;
      IndirectOwned(sb, Abs(), reserved, owner, inum);
      var addr := WordAt(blocks[inodes[inum].addrs[NDIRECT]], j);
      if addr != 0 {
        return Some(addr);
      }
      r := AllocEntry(inum, j);
      GrowsTransitive(sb, old(Abs()), mid, Abs(), old(owner), midOwner, owner, inum);
      BmapLogsTwice(sb, old(Logged()), Sectors(midWrites), Logged(), old(owner), midOwner, owner, inum, NDIRECT + j);
      RecordedTwice(old(blocks), old(writes), mid.blocks, midWrites, blocks, writes);
    }

    /** bmap.  The address of block bn of the file, allocated if there was none;
        no other address of any file changes and no data moves. */
    method Bmap(inum: nat, bn: nat) returns (r: Option<Word>)
      requires Owns() && inum < sb.ninodes
      modifies this`blocks, this`inodes, this`owner, this`writes
      ensures Owns() && Grows(sb, old(Abs()), Abs(), old(owner), owner, inum)
      ensures Recorded(old(blocks), old(writes), blocks, writes)
      ensures bn < MAXFILE ==> BmapLogs(sb, old(Logged()), Logged(), old(owner), owner, inum, bn)
      ensures r.Some? ==> bn < MAXFILE && r.value != 0 && r.value == BlockOf(sb, Abs(), inum, bn)
                          && OnlyNewBlock(sb, old(Abs()), Abs(), inum, bn)
      ensures r.None? ==> bn >= MAXFILE || DiskFull(Abs())
      ensures bn < MAXFILE && BlockOf(sb, old(Abs()), inum, bn) != 0 ==>
                r.Some? && Abs() == old(Abs()) && owner == old(owner) && writes == old(writes)
    {
      hide Used, Ref, SlotOk, OwnerOk, BitOk, Grows, Owned, DiskFull, OnlyNewBlock, BmapLogs, Recorded, Sectors;
      RecordedNone(blocks, writes);
      OwnedShaped(sb, Abs(), reserved, owner);
      SelfGrows(sb, Abs(), owner, inum, reserved);
      if bn < NDIRECT {
        r := BmapDirect(inum, bn);
      } else if bn - NDIRECT < NINDIRECT {
        r := BmapIndirect(inum, bn - NDIRECT);
      } else {
        r := None;
      }
    }

    /** iupdate: the in-memory inode goes to its place in the inode block. */
    method Iupdate(inum: nat)
      requires Shaped(sb, Abs()) && inum < sb.ninodes && IBlock(inum) < |blocks|
      modifies this`blocks, this`writes
      ensures Abs() == Stored(old(Abs()), inum) && Logged() == old(Logged()) + {IBlock(inum)}
      ensures Recorded(old(blocks), old(writes), blocks, writes)
    {
      hide Recorded, Sectors;
      var slot, ino := inum % IPB, inodes[inum];
      var b := blocks[IBlock(inum)];
      var j := 0;
      while j < 16
        invariant j <= 16 && b == PutInode(blocks[IBlock(inum)], slot, ino, j)
      {
        b := SetWord(b, 16 * slot + j, InodeWord(ino, j));
        j := j + 1;
      }
      LogWrite(IBlock(inum), b);
    }

    /** One round of the loop in writei; None when bmap panics. */
    method WriteRound(inum: nat, src: seq<Byte>, off: nat, tot: nat, ghost fs0: Fs, ghost owner0: map<nat, Slot>,
                      ghost logged0: set<nat>) returns (m: Option<nat>)
      requires Owns() && Progress(sb, fs0, Abs(), inum, off, src, tot) && tot < |src|
      requires WriteLogs(sb, logged0, Logged(), owner0, owner, inum, off / BSIZE, TopBlock(off, tot))
      requires off <= fs0.inodes[inum].size <= MAXFILE * BSIZE && off + |src| <= MAXFILE * BSIZE
      requires Dense(sb, fs0, inum, BlocksFor(fs0.inodes[inum].size))
      modifies this`blocks, this`inodes, this`owner, this`writes
      ensures Owns() && old(Logged()) <= Logged() && Recorded(old(blocks), old(writes), blocks, writes)
      ensures m.Some? ==> WriteLogs(sb, logged0, Logged(), owner0, owner, inum, off / BSIZE, TopBlock(off, tot + m.value))
      ensures m.None? ==> DiskFull(Abs()) && off + |src| > fs0.inodes[inum].size
      ensures m.Some? ==> 1 <= m.value <= |src| - tot && Progress(sb, fs0, Abs(), inum, off, src, tot + m.value)
      ensures m.Some? && off + |src| <= fs0.inodes[inum].size ==> inodes == old(inodes)
    {
      hide Used, Ref, Owned, Grows, Progress, Dense, OnlyNewBlock, BlockOf, DiskFull, Patched, ByteIs, BmapLogs, WriteLogs, TopBlock, Recorded, Sectors;
      ghost var fs := Abs();
      ProgressShape(sb, fs0, fs, inum, off, src, tot);
      var bn, o := (off + tot) / BSIZE, (off + tot) % BSIZE;
      if off + |src| <= fs0.inodes[inum].size { BlockThere(sb, fs0, fs, inum, off, src, tot); }
      var addr := Bmap(inum, bn);
      BlockInRange(off, |src|, tot);
      BmapLogsMore(sb, old(Logged()), Logged(), old(owner), owner, inum, bn);
      if addr.None? { return None; }
      var n := if |src| - tot < BSIZE - o then |src| - tot else BSIZE - o;
      OwnedShaped(sb, Abs(), reserved, owner);
      ProgressStep(sb, fs0, fs, Abs(), reserved, old(owner), owner, inum, off, src, tot, n);
      RoundBlocks(off, tot, n);
      RoundLogs(sb, Abs(), reserved, logged0, old(Logged()), Logged(), owner0, old(owner), owner, inum, off / BSIZE, TopBlock(off, tot), bn, addr.value);
      ghost var mid, midWrites := blocks, writes;
      LogWrite(addr.value, Patched(blocks[addr.value], o, src[tot..tot + n]));
      RecordedTwice(old(blocks), old(writes), mid, midWrites, blocks, writes);
      return Some(n);
    }

    /** writei.  Accepted writes splice src into the file at off and touch no other
        file; blocks stay dense and every stored inode equals the one in memory. */
    method Writei(inum: nat, src: seq<Byte>, off: Word) returns (r: WriteResult)
      requires FsOk(sb, Abs(), reserved, owner) && inum < sb.ninodes && |src| < WORD_LIMIT
      modifies this`blocks, this`inodes, this`owner, this`writes
      ensures r.ToDevice? <==> old(inodes[inum].kind) == T_DEV
      ensures r.Refused? <==>
              old(inodes[inum].kind) != T_DEV && (off > old(inodes[inum].size) || off + |src| > MAXFILE * BSIZE)
      ensures src == [] || r.Refused? || r.ToDevice? ==> Abs() == old(Abs()) && owner == old(owner) && writes == old(writes)
      ensures r.Panicked? ==> Owns() && DiskFull(Abs()) && off + |src| > old(inodes[inum].size)
      ensures r.Wrote? ==> r.n == |src| && FsOk(sb, Abs(), reserved, owner)
      ensures r.Wrote? ==> WriteEffect(sb, old(Abs()), Abs(), inum, off, src)
      ensures Recorded(old(blocks), old(writes), blocks, writes)
      ensures r.Wrote? ==> WriteiLogs(sb, old(Logged()), Logged(), old(owner), owner, inum, off, |src|, off + |src| > old(inodes[inum].size))
    {
      hide Used, Ref, Owned, Progress, Dense, Content, Splice, DiskFull, Synced, IsMapBlock, WriteLogs, TopBlock, Recorded, Sectors;
      RecordedNone(blocks, writes);
      ghost var fs0, owner0 := Abs(), owner;
      OwnedShaped(sb, fs0, reserved, owner);
      assert FileOk(sb, fs0, inum);
      var size, n := inodes[inum].size, |src|;
      if inodes[inum].kind == T_DEV { return ToDevice; }
      if off > size || (off + n) % WORD_LIMIT < off { return Refused; }
      if (off + n) % WORD_LIMIT > MAXFILE * BSIZE { return Refused; }
      ProgressStart(sb, fs0, inum, off, src);
      WriteLogsNothing(sb, Logged(), owner, inum, off / BSIZE);
      NoBlocks(off);
      var tot := 0;
      while tot < n
        invariant tot <= n && Owns() && Progress(sb, fs0, Abs(), inum, off, src, tot)
        invariant off + n <= size ==> inodes == fs0.inodes
        invariant tot == 0 ==> Abs() == fs0 && owner == owner0 && writes == old(writes)
        invariant WriteLogs(sb, old(Logged()), Logged(), owner0, owner, inum, off / BSIZE, TopBlock(off, tot))
        invariant Recorded(old(blocks), old(writes), blocks, writes)
        decreases n - tot
      {
        ghost var was, wasWrites := blocks, writes;
        var m := WriteRound(inum, src, off, tot, fs0, owner0, old(Logged()));
        RecordedTwice(old(blocks), old(writes), was, wasWrites, blocks, writes);
        if m.None? { return Panicked; }
        tot := tot + m.value;
      }
      ghost var fs, before := Abs(), writes;
      ProgressShape(sb, fs0, fs, inum, off, src, n);
      WriteFinishes(sb, fs0, fs, reserved, owner0, owner, inum, off, src);
      InodeBlockIn(sb, fs, reserved, owner, inum);
      if n > 0 && off + n > size {
        inodes := inodes[inum := inodes[inum].(size := off + n)];
        Iupdate(inum);
        RecordedTwice(old(blocks), old(writes), fs.blocks, before, blocks, writes);
      }
      WriteiLogged(sb, old(Logged()), Logged(), owner0, owner, Sectors(before), inum, off, n, off + n > size);
      return Wrote(n);
    }

    /** readi.  Accepted reads return the slice of the file, cut off at its end,
        and change nothing: every block they need is already there. */
    method Readi(inum: nat, off: Word, n: Word) returns (r: ReadResult)
      requires FsOk(sb, Abs(), reserved, owner) && inum < sb.ninodes
      modifies this`blocks, this`inodes, this`owner, this`writes
      ensures Abs() == old(Abs()) && owner == old(owner) && writes == old(writes) && !r.ReadPanicked?
      ensures r.ReadDevice? <==> inodes[inum].kind == T_DEV
      ensures r.ReadRefused? <==> inodes[inum].kind != T_DEV && (off > inodes[inum].size || off + n >= WORD_LIMIT)
      ensures r.Read? ==> FileOk(sb, Abs(), inum) && off <= |Content(sb, Abs(), inum)|
      ensures r.Read? ==> r.data == Slice(Content(sb, Abs(), inum), off, n)
    {
      hide Used, Ref, Owned, Dense, Synced, FileByte, BlockOf, Content;
      ghost var fs0 := Abs();
      OwnedShaped(sb, fs0, reserved, owner);
      assert FileOk(sb, fs0, inum);
      var size := inodes[inum].size;
      if inodes[inum].kind == T_DEV { return ReadDevice; }
      if off > size || (off + n) % WORD_LIMIT < off { return ReadRefused; }
      var want := if off + n > size then size - off else n;
      var data := [];
      var tot := 0;
      while tot < want
        invariant tot <= want && Abs() == fs0 && owner == old(owner) && writes == old(writes)
        invariant data == Content(sb, fs0, inum)[off..off + tot]
        decreases want - tot
      {
        var part := ReadRound(inum, off + tot, want - tot);
        data := data + part;
        SlicesJoin(Content(sb, fs0, inum), off, off + tot, off + tot + |part|);
        tot := tot + |part|;
      }
      return Read(data);
    }

    /** One round of the loop in readi: bytes of one block, from position k on. */
    method ReadRound(inum: nat, k: nat, left: nat) returns (part: seq<Byte>)
      requires FsOk(sb, Abs(), reserved, owner) && inum < sb.ninodes && left > 0 && Shaped(sb, Abs()) && k + left <= inodes[inum].size
      modifies this`blocks, this`inodes, this`owner, this`writes
      ensures Abs() == old(Abs()) && owner == old(owner) && writes == old(writes)
      ensures 1 <= |part| <= left && FileOk(sb, Abs(), inum) && part == Content(sb, Abs(), inum)[k..k + |part|]
    {
      hide Used, Ref, Owned, Dense, Grows, OnlyNewBlock, Synced, DiskFull, BmapLogs, Recorded, Sectors, FileByte, BlockOf, Content;
      ghost var fs0 := Abs();
      assert FileOk(sb, fs0, inum);
      var bn, o := k / BSIZE, k % BSIZE;
      FileBlock(sb, fs0, reserved, owner, inum, k);
      var addr := Bmap(inum, bn);
      var m := if left < BSIZE - o then left else BSIZE - o;
      BlockSlice(sb, fs0, inum, k, m);
      part := blocks[addr.value][o..o + m];
    }

    /** The first loop of itrunc: the direct blocks. */
    method TruncDirect(inum: nat) returns (ok: bool)
      requires Owns() && inum < sb.ninodes
      modifies this`blocks, this`inodes, this`owner, this`writes
      ensures ok && Owns() && MapOnly(sb, old(Abs()), Abs()) && |inodes| == |old(inodes)| && |inodes[inum].addrs| == NDIRECT + 1
      ensures forall j :: 0 <= j < NDIRECT ==> inodes[inum].addrs[j] == 0
      ensures inodes == old(inodes)[inum := old(inodes[inum]).(addrs := inodes[inum].addrs)]
      ensures inodes[inum].addrs[NDIRECT] == old(inodes[inum].addrs[NDIRECT])
      ensures Recorded(old(blocks), old(writes), blocks, writes) && MapLogged(sb, old(Logged()), Logged())
    {
      hide Used, Ref, SetBit, Owned, Recorded, Sectors;
      RecordedNone(blocks, writes);
      var i := 0;
      OwnedShaped(sb, Abs(), reserved, owner);
      while i < NDIRECT
        invariant i <= NDIRECT && Owns() && MapOnly(sb, old(Abs()), Abs()) && Shaped(sb, Abs()) && inum < sb.ninodes
        invariant forall j :: 0 <= j < i ==> inodes[inum].addrs[j] == 0
        invariant inodes == old(inodes)[inum := old(inodes[inum]).(addrs := inodes[inum].addrs)]
        invariant inodes[inum].addrs[NDIRECT] == old(inodes[inum].addrs[NDIRECT])
        invariant Recorded(old(blocks), old(writes), blocks, writes) && MapLogged(sb, old(Logged()), Logged())
      {
        var b := inodes[inum].addrs[i];
        if b != 0 {
          DropDirect(sb, Abs(), reserved, owner, inum, i);
          FreeIsMapOnly(sb, old(Abs()), Abs(), b);
          ghost var was, wasWrites := blocks, writes;
          ok := Bfree(b);
          RecordedTwice(old(blocks), old(writes), was, wasWrites, blocks, writes);
          inodes := inodes[inum := inodes[inum].(addrs := inodes[inum].addrs[i := 0])];
          owner := owner - {b};
          OwnedShaped(sb, Abs(), reserved, owner);
        }
        i := i + 1;
      }
      ok := true;
    }

    /** The second loop: every entry of the indirect block, whose address is not
        cleared yet. */
    method TruncEntries(inum: nat, ind: nat, ghost fs0: Fs, ghost owner0: map<nat, Slot>) returns (ok: bool)
      requires Owned(sb, fs0, reserved, owner0, {}, {}) && inum < sb.ninodes && Abs() == fs0
      requires fs0.inodes[inum].addrs[NDIRECT] == ind && ind != 0 && ind < |blocks|
      requires Owned(sb, fs0, reserved, owner, Loose(owner0, Dropped(inum, NDIRECT)), Dropped(inum, NDIRECT))
      modifies this`blocks, this`writes
      ensures ok && MapOnly(sb, fs0, Abs()) && Owned(sb, Abs(), reserved, owner, {ind}, Dropped(inum, NDIRECT))
      ensures Recorded(old(blocks), old(writes), blocks, writes) && MapLogged(sb, old(Logged()), Logged())
    {
      hide Used, Ref, SetBit, Owned, Loose, Dropped, Entry, Recorded, Sectors;
      RecordedNone(blocks, writes);
      ghost var dead, extra := Dropped(inum, NDIRECT), Loose(owner0, Dropped(inum, NDIRECT));
      forall b ensures b in extra <==> b == ind || (b != 0 && exists j :: IsEntry(fs0, ind, j, b)) {
        if b >= 0 { LooseBlocks(sb, fs0, reserved, owner0, inum, b); }
      }
      ghost var all := extra;
      var j := 0;
      while j < NINDIRECT
        invariant j <= NINDIRECT && |blocks| == |fs0.blocks| && MapOnly(sb, fs0, Abs()) && inodes == fs0.inodes
        invariant Owned(sb, Abs(), reserved, owner, extra, dead)
        invariant forall b :: b in extra <==> b in all && forall k :: 0 <= k < j ==> Entry(fs0, ind, k) != b
        invariant ind in extra
        invariant Recorded(old(blocks), old(writes), blocks, writes) && MapLogged(sb, old(Logged()), Logged())
      {
        OwnedIsNoMapBlock(sb, Abs(), reserved, owner, extra, dead, ind);
        var b := WordAt(blocks[ind], j);
        EntryIs(fs0, ind, j);
        forall k | 0 <= k < NINDIRECT && k != j ensures b != 0 ==> Entry(fs0, ind, k) != b && b != ind {
          EntriesDiffer(sb, fs0, reserved, owner0, inum, j, k);
        }
        if b != 0 {
          assert IsEntry(fs0, ind, j, b);
          FreeKeepsOwned(sb, Abs(), reserved, owner, extra, dead, b);
          FreeIsMapOnly(sb, fs0, Abs(), b);
          ghost var was, wasWrites := blocks, writes;
          ok := Bfree(b);
          RecordedTwice(old(blocks), old(writes), was, wasWrites, blocks, writes);
          extra := extra - {b};
          assert Entry(fs0, ind, if j == 0 then 1 else 0) != b;
        }
        j := j + 1;
      }
      assert extra == {ind};
      ok := true;
    }

    /** The indirect block with all its entries. */
    method TruncIndirect(inum: nat) returns (ok: bool)
      requires Owns() && inum < sb.ninodes
      modifies this`blocks, this`inodes, this`owner, this`writes
      ensures ok && Owns() && MapOnly(sb, old(Abs()), Abs()) && |old(inodes)| == sb.ninodes && |old(inodes[inum].addrs)| == NDIRECT + 1
      ensures inodes == old(inodes)[inum := old(inodes[inum]).(addrs := old(inodes[inum].addrs)[NDIRECT := 0])]
      ensures Recorded(old(blocks), old(writes), blocks, writes) && MapLogged(sb, old(Logged()), Logged())
    {
      hide Used, Ref, SetBit, Owned, Loose, Dropped, Detached, IsMapBlock, Recorded, Sectors;
      RecordedNone(blocks, writes);
      ok := true;
      ghost var fs1, owner1 := Abs(), owner;
      OwnedShaped(sb, fs1, reserved, owner1);
      var ind := inodes[inum].addrs[NDIRECT];
      if ind != 0 {
        IndirectOwned(sb, fs1, reserved, owner1, inum);
        DetachKeepsOwned(sb, fs1, reserved, owner1, inum, NDIRECT);
        owner := Detached(owner1, Dropped(inum, NDIRECT));
        ok := TruncEntries(inum, ind, fs1, owner1);
        FreeKeepsOwned(sb, Abs(), reserved, owner, {ind}, Dropped(inum, NDIRECT), ind);
        FreeIsMapOnly(sb, fs1, Abs(), ind);
        FreesMapBlock(sb, ind);
        ghost var mid, midWrites := blocks, writes;
        ok := Bfree(ind);
        RecordedTwice(old(blocks), old(writes), mid, midWrites, blocks, writes);
        assert {ind} - {ind} == {};
        ClearAddrKeepsOwned(sb, Abs(), reserved, owner, {}, inum, NDIRECT);
      }
      assert ind == 0 ==> inodes[inum].addrs[NDIRECT := 0] == inodes[inum].addrs && inodes[inum := inodes[inum]] == inodes;
      inodes := inodes[inum := inodes[inum].(addrs := inodes[inum].addrs[NDIRECT := 0])];
    }

    /** itrunc.  It never meets "freeing free block"; afterwards the file is empty,
        every other file is as it was, and the file's blocks are free again. */
    method Itrunc(inum: nat) returns (ok: bool)
      requires FsOk(sb, Abs(), reserved, owner) && inum < sb.ninodes
      modifies this`blocks, this`inodes, this`owner, this`writes
      ensures ok && FsOk(sb, Abs(), reserved, owner) && |old(inodes)| == sb.ninodes
      ensures inodes == old(inodes)[inum := Emptied(old(inodes[inum]))] && Content(sb, Abs(), inum) == []
      ensures Recorded(old(blocks), old(writes), blocks, writes) && MapLogged(sb, old(Logged()) + {IBlock(inum)}, Logged())
      ensures forall i :: 0 <= i < sb.ninodes && i != inum ==>
                FileOk(sb, old(Abs()), i) && FileOk(sb, Abs(), i) && Content(sb, Abs(), i) == Content(sb, old(Abs()), i)
    {
      hide Used, Ref, SetBit, Owned, Content, FileOk, IsMapBlock, Recorded, Sectors, MapLogged;
      ghost var fs0, owner0 := Abs(), owner;
      OwnedShaped(sb, fs0, reserved, owner0);
      ok := TruncDirect(inum);
      ghost var fs1, writes1 := Abs(), writes;
      ok := TruncIndirect(inum);
      ghost var fs2, writes2 := Abs(), writes;
      MapOnlyTwice(sb, fs0, fs1, fs2);
      OwnedShaped(sb, Abs(), reserved, owner);
      assert inodes[inum].addrs == seq(NDIRECT + 1, i => 0);
      ResizedOwned(sb, Abs(), reserved, owner, inum, 0);
      inodes := inodes[inum := inodes[inum].(size := 0)];
      assert inodes == fs0.inodes[inum := Emptied(fs0.inodes[inum])];
      TruncFinishes(sb, fs0, Abs(), reserved, owner0, owner, inum);
      OwnedShaped(sb, Abs(), reserved, owner);
      Iupdate(inum);
      RecordedTwice(old(blocks), old(writes), fs1.blocks, writes1, fs2.blocks, writes2);
      RecordedTwice(old(blocks), old(writes), fs2.blocks, writes2, blocks, writes);
      MapLoggedTwice(sb, old(Logged()), Sectors(writes1), Sectors(writes2), Logged(), inum);
    }
  }

  lemma FreesMapBlock(sb: Super, b: nat)
    requires b < sb.size
    ensures IsMapBlock(sb, BBlock(sb, b))
  {
  }

  lemma MapLoggedTwice(sb: Super, la: set<nat>, lb: set<nat>, lc: set<nat>, ld: set<nat>, inum: nat)
    requires MapLogged(sb, la, lb) && MapLogged(sb, lb, lc) && ld == lc + {IBlock(inum)}
    ensures MapLogged(sb, la + {IBlock(inum)}, ld)
  {
    hide IsMapBlock;
  }

  lemma SelfGrows(sb: Super, fs: Fs, owner: map<nat, Slot>, inum: nat, reserved: set<nat>)
    requires Owned(sb, fs, reserved, owner, {}, {}) && inum < sb.ninodes
    ensures Grows(sb, fs, fs, owner, owner, inum)
  {
    hide Ref;
    forall b | b in owner ensures KeptBlock(fs, fs, owner, owner, b) {
      assert OwnerOk(sb, fs, reserved, owner, {}, {}, b);
    }
    forall s | IsSlot(sb, s) ensures KeptRef(sb, fs, fs, inum, s) { }
  }

  lemma IndirectOwned(sb: Super, fs: Fs, reserved: set<nat>, owner: map<nat, Slot>, inum: nat)
    requires Owned(sb, fs, reserved, owner, {}, {}) && inum < sb.ninodes && fs.inodes[inum].addrs[NDIRECT] != 0
    ensures var ind := fs.inodes[inum].addrs[NDIRECT];
            ind < |fs.blocks| && ind < sb.size && ind in owner && owner[ind] == Slot(inum, NDIRECT)
  {
    assert SlotOk(fs, owner, Slot(inum, NDIRECT));
    var ind := fs.inodes[inum].addrs[NDIRECT];
    assert OwnerOk(sb, fs, reserved, owner, {}, {}, ind);
  }

  lemma FreshBlock(sb: Super, fs: Fs, reserved: set<nat>, owner: map<nat, Slot>, b: nat)
    requires Owned(sb, fs, reserved, owner, {}, {}) && b < sb.size && BBlock(sb, b) < |fs.blocks| && !Used(sb, fs, b)
    ensures b !in owner
  {
    assert BitOk(sb, fs, reserved, owner, {}, b);
  }

  lemma BmapLogsMore(sb: Super, logged0: set<nat>, logged: set<nat>, owner0: map<nat, Slot>, owner: map<nat, Slot>, inum: nat, bn: nat)
    requires bn < MAXFILE && BmapLogs(sb, logged0, logged, owner0, owner, inum, bn)
    ensures logged0 <= logged
  {
  }

  lemma NoBlocks(off: nat)
    ensures TopBlock(off, 0) == off / BSIZE
  {
  }

  lemma ProgressShape(sb: Super, fs0: Fs, fs: Fs, inum: nat, off: nat, src: seq<Byte>, tot: nat)
    requires Progress(sb, fs0, fs, inum, off, src, tot)
    ensures Shaped(sb, fs0) && Shaped(sb, fs) && inum < sb.ninodes && |fs.blocks| == |fs0.blocks|
    ensures fs.inodes[inum].size == fs0.inodes[inum].size
  {
  }

  /** Inside the file bmap finds the block in place. */
  lemma BlockThere(sb: Super, fs0: Fs, fs: Fs, inum: nat, off: nat, src: seq<Byte>, tot: nat)
    requires Progress(sb, fs0, fs, inum, off, src, tot) && tot < |src| && off + |src| <= fs0.inodes[inum].size <= MAXFILE * BSIZE
    ensures BlockOf(sb, fs, inum, (off + tot) / BSIZE) != 0
  {
    assert (off + tot) / BSIZE < BlocksFor(fs0.inodes[inum].size);
  }

  lemma BlockInRange(off: nat, n: nat, tot: nat)
    requires tot < n && off + n <= MAXFILE * BSIZE
    ensures (off + tot) / BSIZE < MAXFILE
  {
  }

  /** The bytes off .. off + n of c, as many as there are. */
  function Slice(c: seq<Byte>, off: nat, n: nat): seq<Byte>
    requires off <= |c|
  {
    if off + n > |c| then c[off..] else c[off..off + n]
  }

  /** A read returns what the write before it put there. */
  lemma WrittenIsRead(c: seq<Byte>, off: nat, src: seq<Byte>)
    requires off <= |c|
    ensures off + |src| <= |Splice(c, off, src)| && Slice(Splice(c, off, src), off, |src|) == src
  {
    SpliceBytes(c, off, src);
  }

  /** A byte of a dense file lies in an allocated block. */
  lemma FileBlock(sb: Super, fs: Fs, reserved: set<nat>, owner: map<nat, Slot>, inum: nat, k: nat)
    requires Owned(sb, fs, reserved, owner, {}, {}) && inum < sb.ninodes && FileOk(sb, fs, inum) && k < fs.inodes[inum].size
    ensures BlockOf(sb, fs, inum, k / BSIZE) != 0 && BlockOf(sb, fs, inum, k / BSIZE) < |fs.blocks|
  {
    hide Ref;
    assert k / BSIZE < BlocksFor(fs.inodes[inum].size);
    var b := BlockOf(sb, fs, inum, k / BSIZE);
    assert SlotOk(fs, owner, DataSlot(inum, k / BSIZE));
    assert OwnerOk(sb, fs, reserved, owner, {}, {}, b);
  }

  lemma BlockSlice(sb: Super, fs: Fs, inum: nat, k: nat, m: nat)
    requires Shaped(sb, fs) && inum < sb.ninodes && fs.inodes[inum].size <= MAXFILE * BSIZE
    requires k + m <= fs.inodes[inum].size && m >= 1 && k % BSIZE + m <= BSIZE
    requires BlockOf(sb, fs, inum, k / BSIZE) < |fs.blocks|
    ensures fs.blocks[BlockOf(sb, fs, inum, k / BSIZE)][k % BSIZE..k % BSIZE + m] == Content(sb, fs, inum)[k..k + m]
  {
    hide Ref, BlockOf;
    var a, c := fs.blocks[BlockOf(sb, fs, inum, k / BSIZE)][k % BSIZE..k % BSIZE + m], Content(sb, fs, inum)[k..k + m];
    forall j | 0 <= j < m ensures a[j] == c[j] {
      InBlock(k, 0, m, k + j);
      assert Content(sb, fs, inum)[k + j] == FileByte(sb, fs, inum, k + j);
    }
  }

  lemma SlicesJoin(c: seq<Byte>, i: nat, j: nat, k: nat)
    requires i <= j <= k <= |c|
    ensures c[i..j] + c[j..k] == c[i..k]
  {
  }

  lemma EntryIs(fs: Fs, ind: nat, j: nat)
    requires ind < |fs.blocks| && j < NINDIRECT
    ensures Entry(fs, ind, j) == WordAt(fs.blocks[ind], j)
  {
  }

  lemma UsedIsBit(sb: Super, fs: Fs, b: nat)
    requires BBlock(sb, b) < |fs.blocks|
    ensures Used(sb, fs, b) == BitAt(fs.blocks[BBlock(sb, b)], b % BPB)
  {
  }
}
