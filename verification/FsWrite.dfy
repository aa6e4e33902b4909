/** What the copying loops of writei and readi do to files seen as byte strings. */
module FsWrite {
  import opened Types
  import opened Blocks
  import opened FsState

  /** c with src written over it from off on, extended if src reaches past the end. */
  function Splice(c: seq<Byte>, off: nat, src: seq<Byte>): seq<Byte>
    requires off <= |c|
  {
    c[..off] + src + (if off + |src| < |c| then c[off + |src|..] else [])
  }

  /** Byte for byte: src from off on, the old contents elsewhere. */
  lemma SpliceBytes(c: seq<Byte>, off: nat, src: seq<Byte>)
    requires off <= |c|
    ensures |Splice(c, off, src)| == if off + |src| > |c| then off + |src| else |c|
    ensures forall k :: 0 <= k < |Splice(c, off, src)| ==>
              Splice(c, off, src)[k] == if off <= k < off + |src| then src[k - off] else c[k]
  {
  }

  function Max(a: nat, b: nat): nat {
    if a < b then b else a
  }

  /** Byte k of file i after the first tot bytes of src went to file inum at off. */
  ghost predicate ByteIs(sb: Super, fs0: Fs, fs: Fs, inum: nat, off: nat, src: seq<Byte>, tot: nat, i: nat, k: nat)
    requires Shaped(sb, fs0) && Shaped(sb, fs) && i < sb.ninodes && k < MAXFILE * BSIZE && tot <= |src|
  {
    && (i == inum && off <= k < off + tot ==> FileByte(sb, fs, i, k) == src[k - off])
    && (!(i == inum && off <= k < off + tot) && BlockOf(sb, fs0, i, k / BSIZE) != 0 ==>
          FileByte(sb, fs, i, k) == FileByte(sb, fs0, i, k))
  }

  ghost predicate OtherRef(sb: Super, fs0: Fs, fs: Fs, inum: nat, s: Slot)
    requires Shaped(sb, fs0) && Shaped(sb, fs) && IsSlot(sb, s)
  {
    s.inum != inum ==> Ref(fs, s) == Ref(fs0, s)
  }

  /** State of the file system inside the loop of writei. */
  ghost predicate Progress(sb: Super, fs0: Fs, fs: Fs, inum: nat, off: nat, src: seq<Byte>, tot: nat) {
    && Shaped(sb, fs0) && Shaped(sb, fs) && |fs.blocks| == |fs0.blocks| && inum < sb.ninodes && tot <= |src|
    && (forall i :: 0 <= i < sb.ninodes && i != inum ==> fs.inodes[i] == fs0.inodes[i])
    && fs.inodes[inum] == fs0.inodes[inum].(addrs := fs.inodes[inum].addrs)
    && (forall i :: 0 <= i < sb.ninodes && IBlock(i) < |fs.blocks| ==> fs.blocks[IBlock(i)] == fs0.blocks[IBlock(i)])
    && (forall s :: IsSlot(sb, s) ==> OtherRef(sb, fs0, fs, inum, s))
    && (forall i, k :: 0 <= i < sb.ninodes && 0 <= k < MAXFILE * BSIZE ==> ByteIs(sb, fs0, fs, inum, off, src, tot, i, k))
    && Dense(sb, fs, inum, Max(BlocksFor(fs0.inodes[inum].size), BlocksFor(off + tot)))
  }

  lemma ProgressStart(sb: Super, fs: Fs, inum: nat, off: nat, src: seq<Byte>)
    requires Shaped(sb, fs) && inum < sb.ninodes && off <= fs.inodes[inum].size
    requires Dense(sb, fs, inum, BlocksFor(fs.inodes[inum].size))
    ensures Progress(sb, fs, fs, inum, off, src, 0)
  {
    hide Ref;
    forall s | IsSlot(sb, s) ensures OtherRef(sb, fs, fs, inum, s) { }
    forall i, k | 0 <= i < sb.ninodes && 0 <= k < MAXFILE * BSIZE ensures ByteIs(sb, fs, fs, inum, off, src, 0, i, k) { }
  }

  /** bytes o .. o + |part| of a block replaced */
  function Patched(b: Block, o: nat, part: seq<Byte>): Block
    requires o + |part| <= BSIZE
  {
    b[..o] + part + b[o + |part|..]
  }

  lemma StepByte(sb: Super, fs0: Fs, fs: Fs, fs1: Fs, reserved: set<nat>, owner: map<nat, Slot>, owner1: map<nat, Slot>,
                 inum: nat, off: nat, src: seq<Byte>, tot: nat, m: nat, i: nat, k: nat)
    requires Progress(sb, fs0, fs, inum, off, src, tot) && tot + m <= |src| && i < sb.ninodes && k < MAXFILE * BSIZE
    requires Owned(sb, fs, reserved, owner, {}, {}) && Owned(sb, fs1, reserved, owner1, {}, {}) && Shaped(sb, fs1)
    requires Grows(sb, fs, fs1, owner, owner1, inum) && off <= fs0.inodes[inum].size
    requires off + |src| <= MAXFILE * BSIZE && m >= 1 && (off + tot) % BSIZE + m <= BSIZE
    requires BlockOf(sb, fs1, inum, (off + tot) / BSIZE) != 0 && BlockOf(sb, fs1, inum, (off + tot) / BSIZE) < |fs1.blocks|
    requires BlockOf(sb, fs0, i, k / BSIZE) != 0 ==> BlockOf(sb, fs, i, k / BSIZE) != 0
    requires i == inum && off <= k < off + tot ==> BlockOf(sb, fs, i, k / BSIZE) != 0
    ensures var c := BlockOf(sb, fs1, inum, (off + tot) / BSIZE);
            var data := Patched(fs1.blocks[c], (off + tot) % BSIZE, src[tot..tot + m]);
            var fs2 := fs1.(blocks := fs1.blocks[c := data]);
            Shaped(sb, fs2) && ByteIs(sb, fs0, fs2, inum, off, src, tot + m, i, k)
  {
    hide Ref, Owned, Grows, Dense, BlockOf;
    var bn, o := (off + tot) / BSIZE, (off + tot) % BSIZE;
    var c := BlockOf(sb, fs1, inum, bn);
    var data := Patched(fs1.blocks[c], o, src[tot..tot + m]);
    var fs2 := fs1.(blocks := fs1.blocks[c := data]);
    assert ByteIs(sb, fs0, fs, inum, off, src, tot, i, k);
    if BlockOf(sb, fs, i, k / BSIZE) != 0 {
      GrowsKeepsByte(sb, fs, fs1, reserved, owner, owner1, {}, inum, i, k);
      GrowsKeepsBlock(sb, fs, fs1, owner, owner1, inum, i, k / BSIZE);
      DataWriteByte(sb, fs1, reserved, owner1, inum, bn, data, i, k);
      InBlock(off, tot, m, k);
      assert i == inum && k / BSIZE == bn ==> data[k % BSIZE] == if off + tot <= k < off + tot + m then src[k - off] else FileByte(sb, fs1, i, k);
    } else if i == inum && off + tot <= k < off + tot + m {
      InBlock(off, tot, m, k);
      DataWriteByte(sb, fs1, reserved, owner1, inum, bn, data, i, k);
    }
  }

  lemma GrowsKeepsBlock(sb: Super, fs: Fs, fs': Fs, owner: map<nat, Slot>, owner': map<nat, Slot>, inum: nat, i: nat, n: nat)
    requires Grows(sb, fs, fs', owner, owner', inum) && i < sb.ninodes && n < MAXFILE && BlockOf(sb, fs, i, n) != 0
    ensures BlockOf(sb, fs', i, n) == BlockOf(sb, fs, i, n)
  {
    hide Ref;
    assert KeptRef(sb, fs, fs', inum, DataSlot(i, n));
  }

  lemma InBlock(off: nat, tot: nat, m: nat, k: nat)
    requires (off + tot) % BSIZE + m <= BSIZE && m >= 1
    ensures off + tot <= k < off + tot + m ==> k / BSIZE == (off + tot) / BSIZE && k % BSIZE == (off + tot) % BSIZE + (k - off - tot)
    ensures k / BSIZE == (off + tot) / BSIZE && !(off + tot <= k < off + tot + m) ==>
              k % BSIZE < (off + tot) % BSIZE || k % BSIZE >= (off + tot) % BSIZE + m
  {
    var q, o := (off + tot) / BSIZE, (off + tot) % BSIZE;
    assert off + tot == BSIZE * q + o;
    if off + tot <= k < off + tot + m {
      assert k == BSIZE * q + (o + (k - off - tot));
    }
  }

  lemma Counting(off: nat, tot: nat, m: nat, size: nat)
    requires off <= size && m >= 1 && (off + tot) % BSIZE + m <= BSIZE
    ensures var bn, count := (off + tot) / BSIZE, Max(BlocksFor(size), BlocksFor(off + tot));
            bn <= count && Max(BlocksFor(size), BlocksFor(off + tot + m)) == if bn < count then count else count + 1
  {
    var q, o := (off + tot) / BSIZE, (off + tot) % BSIZE;
    assert off + tot == BSIZE * q + o;
    assert BlocksFor(off + tot + m) == q + 1 by {
      assert off + tot + m + BSIZE - 1 == BSIZE * (q + 1) + (o + m - 1);
    }
    assert BlocksFor(off + tot) == if o == 0 then q else q + 1 by {
      if o == 0 {
        assert off + tot + BSIZE - 1 == BSIZE * q + (BSIZE - 1);
      } else {
        assert off + tot + BSIZE - 1 == BSIZE * (q + 1) + (o - 1);
      }
    }
  }

  /** Block k / BSIZE exists for every byte written so far. */
  lemma WrittenHasBlock(off: nat, tot: nat, size: nat, k: nat)
    requires off <= k < off + tot
    ensures k / BSIZE < Max(BlocksFor(size), BlocksFor(off + tot))
  {
  }

  /** One round of writei: bmap, then the copy into the block. */
  lemma ProgressStep(sb: Super, fs0: Fs, fs: Fs, fs1: Fs, reserved: set<nat>, owner: map<nat, Slot>, owner1: map<nat, Slot>,
                     inum: nat, off: nat, src: seq<Byte>, tot: nat, m: nat)
    requires Progress(sb, fs0, fs, inum, off, src, tot) && tot + m <= |src|
    requires Owned(sb, fs, reserved, owner, {}, {}) && Owned(sb, fs1, reserved, owner1, {}, {}) && Shaped(sb, fs1)
    requires Grows(sb, fs, fs1, owner, owner1, inum) && off <= fs0.inodes[inum].size
    requires Dense(sb, fs0, inum, BlocksFor(fs0.inodes[inum].size))
    requires off + |src| <= MAXFILE * BSIZE && m >= 1 && (off + tot) % BSIZE + m <= BSIZE
    requires OnlyNewBlock(sb, fs, fs1, inum, (off + tot) / BSIZE)
    requires BlockOf(sb, fs1, inum, (off + tot) / BSIZE) != 0
    ensures var c := BlockOf(sb, fs1, inum, (off + tot) / BSIZE);
            && c < |fs1.blocks| && c in owner1 && owner1[c] == DataSlot(inum, (off + tot) / BSIZE)
            && var data := Patched(fs1.blocks[c], (off + tot) % BSIZE, src[tot..tot + m]);
               var fs2 := fs1.(blocks := fs1.blocks[c := data]);
               Owned(sb, fs2, reserved, owner1, {}, {}) && Progress(sb, fs0, fs2, inum, off, src, tot + m)
  {
    hide Ref, Owned, SlotOk, OwnerOk, BlockOf, Patched, FileByte;
    var bn, size := (off + tot) / BSIZE, fs0.inodes[inum].size;
    var c := BlockOf(sb, fs1, inum, bn);
    DataWrite(sb, fs1, reserved, owner1, inum, bn, ZeroBlock());
    var data := Patched(fs1.blocks[c], (off + tot) % BSIZE, src[tot..tot + m]);
    DataWrite(sb, fs1, reserved, owner1, inum, bn, data);
    var fs2 := fs1.(blocks := fs1.blocks[c := data]);
    Counting(off, tot, m, size);
    DenseGrows(sb, fs, fs1, inum, Max(BlocksFor(size), BlocksFor(off + tot)), bn);
    forall s | IsSlot(sb, s) ensures OtherRef(sb, fs0, fs2, inum, s) && Ref(fs2, s) == Ref(fs1, s) {
      DataWriteRefs(sb, fs1, reserved, owner1, c, data, s);
      assert OtherRef(sb, fs0, fs, inum, s) && KeptRef(sb, fs, fs1, inum, s);
    }
    var done := tot + m;
    SameRefsDense(sb, fs1, fs2, inum, Max(BlocksFor(size), BlocksFor(off + done)));
    forall i, k | 0 <= i < sb.ninodes && 0 <= k < MAXFILE * BSIZE ensures ByteIs(sb, fs0, fs2, inum, off, src, done, i, k) {
      HasBlock(sb, fs0, fs, inum, off, src, tot, i, k);
      StepByte(sb, fs0, fs, fs1, reserved, owner, owner1, inum, off, src, tot, m, i, k);
    }
  }

  lemma HasBlock(sb: Super, fs0: Fs, fs: Fs, inum: nat, off: nat, src: seq<Byte>, tot: nat, i: nat, k: nat)
    requires Progress(sb, fs0, fs, inum, off, src, tot) && Dense(sb, fs0, inum, BlocksFor(fs0.inodes[inum].size))
    requires i < sb.ninodes && k < MAXFILE * BSIZE
    ensures BlockOf(sb, fs0, i, k / BSIZE) != 0 ==> BlockOf(sb, fs, i, k / BSIZE) != 0
    ensures i == inum && off <= k < off + tot ==> BlockOf(sb, fs, i, k / BSIZE) != 0
  {
    hide Ref, ByteIs;
    assert OtherRef(sb, fs0, fs, inum, DataSlot(i, k / BSIZE));
    if off <= k < off + tot { WrittenHasBlock(off, tot, fs0.inodes[inum].size, k); }
  }

  lemma SameRefsDense(sb: Super, fs: Fs, fs': Fs, inum: nat, count: nat)
    requires Shaped(sb, fs) && Shaped(sb, fs') && inum < sb.ninodes && Dense(sb, fs, inum, count)
    requires forall s :: IsSlot(sb, s) ==> Ref(fs', s) == Ref(fs, s)
    ensures Dense(sb, fs', inum, count)
  {
    assert Ref(fs', Slot(inum, NDIRECT)) == Ref(fs, Slot(inum, NDIRECT));
    forall n | 0 <= n < MAXFILE ensures BlockOf(sb, fs', inum, n) == BlockOf(sb, fs, inum, n) {
      assert Ref(fs', DataSlot(inum, n)) == Ref(fs, DataSlot(inum, n));
    }
  }

  // ----- after the loop

  /** The new size of a file that had `size` bytes. */
  function NewSize(size: nat, off: nat, n: nat): nat {
    if n > 0 && off + n > size then off + n else size
  }

  function Resized(fs: Fs, inum: nat, size: Word): Fs
    requires inum < |fs.inodes|
  {
    fs.(inodes := fs.inodes[inum := fs.inodes[inum].(size := size)])
  }

  /** The bytes of the file are then the old ones with src spliced in. */
  lemma WrittenContent(sb: Super, fs0: Fs, fs: Fs, inum: nat, off: nat, src: seq<Byte>, size: Word)
    requires Progress(sb, fs0, fs, inum, off, src, |src|)
    requires off <= fs0.inodes[inum].size <= MAXFILE * BSIZE && off + |src| <= MAXFILE * BSIZE
    requires Dense(sb, fs0, inum, BlocksFor(fs0.inodes[inum].size)) && size == NewSize(fs0.inodes[inum].size, off, |src|)
    ensures Content(sb, Resized(fs, inum, size), inum) == Splice(Content(sb, fs0, inum), off, src)
  {
    hide Ref, Owned;
    var fs', c0 := Resized(fs, inum, size), Content(sb, fs0, inum);
    var c, want := Content(sb, fs', inum), Splice(c0, off, src);
    assert |want| == size;
    forall k | 0 <= k < size ensures c[k] == want[k] {
      assert ByteIs(sb, fs0, fs, inum, off, src, |src|, inum, k);
      ResizedByte(sb, fs, inum, size, inum, k);
      if k < fs0.inodes[inum].size { assert k / BSIZE < BlocksFor(fs0.inodes[inum].size); }
    }
  }

  lemma ResizedByte(sb: Super, fs: Fs, inum: nat, size: Word, i: nat, k: nat)
    requires Shaped(sb, fs) && inum < sb.ninodes && i < sb.ninodes && k < MAXFILE * BSIZE
    ensures Shaped(sb, Resized(fs, inum, size)) && FileByte(sb, Resized(fs, inum, size), i, k) == FileByte(sb, fs, i, k)
  {
  }

  /** Every other file keeps its bytes. */
  lemma OtherContent(sb: Super, fs0: Fs, fs: Fs, inum: nat, off: nat, src: seq<Byte>, i: nat)
    requires Progress(sb, fs0, fs, inum, off, src, |src|) && i < sb.ninodes && i != inum
    requires fs0.inodes[i].size <= MAXFILE * BSIZE && Dense(sb, fs0, i, BlocksFor(fs0.inodes[i].size))
    ensures Content(sb, fs, i) == Content(sb, fs0, i) && Dense(sb, fs, i, BlocksFor(fs.inodes[i].size))
  {
    hide Ref;
    forall k | 0 <= k < fs0.inodes[i].size ensures FileByte(sb, fs, i, k) == FileByte(sb, fs0, i, k) {
      assert ByteIs(sb, fs0, fs, inum, off, src, |src|, i, k);
      assert k / BSIZE < BlocksFor(fs0.inodes[i].size);
    }
    forall n | 0 <= n < MAXFILE ensures BlockOf(sb, fs, i, n) == BlockOf(sb, fs0, i, n) {
      assert OtherRef(sb, fs0, fs, inum, DataSlot(i, n));
    }
  }

  /** Storing an inode: the file bytes and addresses stay, its copy on disk is
      the one in memory, and its neighbours' copies are untouched. */
  function Stored(fs: Fs, inum: nat): Fs
    requires inum < |fs.inodes| && |fs.inodes[inum].addrs| == NDIRECT + 1 && IBlock(inum) < |fs.blocks|
  {
    fs.(blocks := fs.blocks[IBlock(inum) := PutInode(fs.blocks[IBlock(inum)], inum % IPB, fs.inodes[inum], 16)])
  }

  lemma StoredKeepsOwned(sb: Super, fs: Fs, reserved: set<nat>, owner: map<nat, Slot>, inum: nat)
    requires Owned(sb, fs, reserved, owner, {}, {}) && inum < sb.ninodes
    ensures IBlock(inum) < |fs.blocks| && Owned(sb, Stored(fs, inum), reserved, owner, {}, {})
    ensures forall s :: IsSlot(sb, s) ==> Ref(Stored(fs, inum), s) == Ref(fs, s)
    ensures IBlock(inum) !in owner
  {
    hide Used, Ref, PutInode, BitOk, SlotOk;
    assert IBlock(inum) in reserved && IBlock(inum) < sb.size;
    var c, data := IBlock(inum), PutInode(fs.blocks[IBlock(inum)], inum % IPB, fs.inodes[inum], 16);
    assert c in owner ==> OwnerOk(sb, fs, reserved, owner, {}, {}, c);
    forall b | 0 <= b < sb.size ensures BBlock(sb, b) != c { }
    WriteKeepsOwned(sb, fs, reserved, owner, {}, {}, c, data);
    forall s | IsSlot(sb, s) ensures Ref(Stored(fs, inum), s) == Ref(fs, s) {
      SameRef(sb, fs, Stored(fs, inum), reserved, owner, {}, {}, s);
    }
  }

  lemma StoredByte(sb: Super, fs: Fs, reserved: set<nat>, owner: map<nat, Slot>, inum: nat, i: nat, k: nat)
    requires Owned(sb, fs, reserved, owner, {}, {}) && inum < sb.ninodes && IBlock(inum) < |fs.blocks|
    requires i < sb.ninodes && k < MAXFILE * BSIZE && BlockOf(sb, fs, i, k / BSIZE) != 0
    ensures Shaped(sb, Stored(fs, inum)) && FileByte(sb, Stored(fs, inum), i, k) == FileByte(sb, fs, i, k)
  {
    hide Ref, PutInode;
    StoredKeepsOwned(sb, fs, reserved, owner, inum);
    assert SlotOk(fs, owner, DataSlot(i, k / BSIZE));
    assert Ref(Stored(fs, inum), DataSlot(i, k / BSIZE)) == Ref(fs, DataSlot(i, k / BSIZE));
  }

  lemma StoredSynced(sb: Super, fs: Fs, inum: nat, i: nat)
    requires Shaped(sb, fs) && inum < sb.ninodes && IBlock(inum) < |fs.blocks| && i < sb.ninodes
    requires i != inum ==> Synced(sb, fs, i)
    ensures Shaped(sb, Stored(fs, inum)) && Synced(sb, Stored(fs, inum), i)
  {
    hide PutInode, DinodeAt;
    DinodeRoundTrip(fs.blocks[IBlock(inum)], inum % IPB, fs.inodes[inum], i % IPB);
  }

  /** A file whose addresses, size and bytes are the same is the same. */
  lemma StoredContent(sb: Super, fs: Fs, reserved: set<nat>, owner: map<nat, Slot>, inum: nat, i: nat)
    requires Owned(sb, fs, reserved, owner, {}, {}) && inum < sb.ninodes && IBlock(inum) < |fs.blocks| && i < sb.ninodes
    requires fs.inodes[i].size <= MAXFILE * BSIZE && Dense(sb, fs, i, BlocksFor(fs.inodes[i].size))
    ensures Shaped(sb, Stored(fs, inum)) && Content(sb, Stored(fs, inum), i) == Content(sb, fs, i)
    ensures Dense(sb, Stored(fs, inum), i, BlocksFor(fs.inodes[i].size))
  {
    hide Ref, PutInode, FileByte;
    StoredKeepsOwned(sb, fs, reserved, owner, inum);
    SameRefsDense(sb, fs, Stored(fs, inum), i, BlocksFor(fs.inodes[i].size));
    forall k | 0 <= k < fs.inodes[i].size ensures FileByte(sb, Stored(fs, inum), i, k) == FileByte(sb, fs, i, k) {
      assert k / BSIZE < BlocksFor(fs.inodes[i].size);
      StoredByte(sb, fs, reserved, owner, inum, i, k);
    }
  }

  lemma ResizedOwned(sb: Super, fs: Fs, reserved: set<nat>, owner: map<nat, Slot>, inum: nat, size: Word)
    requires Owned(sb, fs, reserved, owner, {}, {}) && inum < sb.ninodes
    ensures Owned(sb, Resized(fs, inum, size), reserved, owner, {}, {})
    ensures forall s :: IsSlot(sb, s) ==> Ref(Resized(fs, inum, size), s) == Ref(fs, s)
  {
    hide Used, Ref, SlotOk;
    var fs' := Resized(fs, inum, size);
    forall b | 0 <= b < sb.size ensures BitOk(sb, fs', reserved, owner, {}, b) {
      assert BitOk(sb, fs, reserved, owner, {}, b) && BBlock(sb, b) < sb.size;
      UsedDepends(sb, fs, fs', b);
    }
    Reframed(sb, fs, fs', reserved, owner, {}, {}, {});
    forall s | IsSlot(sb, s) ensures Ref(fs', s) == Ref(fs, s) {
      SameRef(sb, fs, fs', reserved, owner, {}, {}, s);
    }
  }

  /** The state writei leaves: the loop's, resized and stored if it grew. */
  ghost function Finished(fs: Fs, inum: nat, size: Word): Fs
    requires inum < |fs.inodes| && |fs.inodes[inum].addrs| == NDIRECT + 1 && IBlock(inum) < |fs.blocks|
  {
    if size == fs.inodes[inum].size then fs else Stored(Resized(fs, inum, size), inum)
  }

  /** File inum is fs0's with src spliced in at off; every other file is as it was. */
  ghost predicate WriteEffect(sb: Super, fs0: Fs, fs: Fs, inum: nat, off: nat, src: seq<Byte>) {
    && Shaped(sb, fs0) && Shaped(sb, fs) && inum < sb.ninodes
    && FileOk(sb, fs0, inum) && FileOk(sb, fs, inum) && off <= fs0.inodes[inum].size
    && Content(sb, fs, inum) == Splice(Content(sb, fs0, inum), off, src)
    && fs.inodes[inum].(size := 0, addrs := []) == fs0.inodes[inum].(size := 0, addrs := [])
    && forall i :: 0 <= i < sb.ninodes && i != inum ==>
         fs.inodes[i] == fs0.inodes[i] && FileOk(sb, fs0, i) && FileOk(sb, fs, i) && Content(sb, fs, i) == Content(sb, fs0, i)
  }

  /** writei as a whole, on dense files: splice here, nothing elsewhere, and every
      stored inode equal to the one in memory. */
  lemma WriteFinishes(sb: Super, fs0: Fs, fs: Fs, reserved: set<nat>, owner0: map<nat, Slot>, owner: map<nat, Slot>,
                      inum: nat, off: nat, src: seq<Byte>)
    requires FsOk(sb, fs0, reserved, owner0) && Owned(sb, fs, reserved, owner, {}, {})
    requires Progress(sb, fs0, fs, inum, off, src, |src|)
    requires off <= fs0.inodes[inum].size && off + |src| <= MAXFILE * BSIZE
    requires off + |src| <= fs0.inodes[inum].size ==> fs.inodes == fs0.inodes
    ensures var fs' := Finished(fs, inum, NewSize(fs0.inodes[inum].size, off, |src|));
            FsOk(sb, fs', reserved, owner) && WriteEffect(sb, fs0, fs', inum, off, src)
  {
    hide Ref, Owned, Dense, Content, Splice, DinodeAt, PutInode, ByteIs, OtherRef;
    var size: Word := NewSize(fs0.inodes[inum].size, off, |src|);
    assert FileOk(sb, fs0, inum);
    var fs1, fs' := Resized(fs, inum, size), Finished(fs, inum, size);
    InodeBlockIn(sb, fs, reserved, owner, inum);
    WrittenContent(sb, fs0, fs, inum, off, src, size);
    ResizedOwned(sb, fs, reserved, owner, inum, size);
    if size != fs0.inodes[inum].size { StoredKeepsOwned(sb, fs1, reserved, owner, inum); }
    assert fs.inodes[inum].size == fs0.inodes[inum].size;
    assert fs' == if size == fs0.inodes[inum].size then fs1 else Stored(fs1, inum);
    forall i | 0 <= i < sb.ninodes
      ensures FileOk(sb, fs', i)
      ensures Content(sb, fs', i) == if i == inum then Splice(Content(sb, fs0, inum), off, src) else Content(sb, fs0, i)
    {
      assert FileOk(sb, fs0, i);
      FinishOne(sb, fs0, fs, reserved, owner, inum, off, src, size, i);
    }
  }

  lemma InodeBlockIn(sb: Super, fs: Fs, reserved: set<nat>, owner: map<nat, Slot>, inum: nat)
    requires Owned(sb, fs, reserved, owner, {}, {}) && inum < sb.ninodes
    ensures IBlock(inum) < |fs.blocks|
  {
    assert IBlock(inum) < sb.size;
  }

  /** One file after writei. */
  lemma FinishOne(sb: Super, fs0: Fs, fs: Fs, reserved: set<nat>, owner: map<nat, Slot>,
                  inum: nat, off: nat, src: seq<Byte>, size: Word, i: nat)
    requires Owned(sb, fs, reserved, owner, {}, {}) && Progress(sb, fs0, fs, inum, off, src, |src|)
    requires off <= fs0.inodes[inum].size && off + |src| <= MAXFILE * BSIZE && i < sb.ninodes && IBlock(inum) < |fs.blocks|
    requires off + |src| <= fs0.inodes[inum].size ==> fs.inodes == fs0.inodes
    requires size == NewSize(fs0.inodes[inum].size, off, |src|) && FileOk(sb, fs0, i) && FileOk(sb, fs0, inum)
    ensures var fs' := Finished(fs, inum, size);
            && Shaped(sb, fs') && FileOk(sb, fs', i)
            && Content(sb, fs', i) == if i == inum then Splice(Content(sb, fs0, inum), off, src) else Content(sb, fs0, i)
  {
    hide Ref, Owned, Content, Splice, DinodeAt, PutInode, FileByte, ByteIs, OtherRef;
    var fs1, fs' := Resized(fs, inum, size), Finished(fs, inum, size);
    var grew := size != fs0.inodes[inum].size;
    ResizedOwned(sb, fs, reserved, owner, inum, size);
    WrittenContent(sb, fs0, fs, inum, off, src, size);
    if i != inum {
      OtherContent(sb, fs0, fs, inum, off, src, i);
      ResizedContent(sb, fs, inum, size, i);
    }
    assert BlocksFor(size) == Max(BlocksFor(fs0.inodes[inum].size), BlocksFor(off + |src|));
    SameRefsDense(sb, fs, fs1, i, BlocksFor(fs1.inodes[i].size));
    if grew {
      StoredContent(sb, fs1, reserved, owner, inum, i);
      StoredSynced(sb, fs1, inum, i);
    } else {
      assert fs1.inodes == fs.inodes;
    }
  }

  lemma ResizedContent(sb: Super, fs: Fs, inum: nat, size: Word, i: nat)
    requires Shaped(sb, fs) && inum < sb.ninodes && i < sb.ninodes && i != inum && fs.inodes[i].size <= MAXFILE * BSIZE
    ensures Shaped(sb, Resized(fs, inum, size)) && Content(sb, Resized(fs, inum, size), i) == Content(sb, fs, i)
  {
    forall k | 0 <= k < fs.inodes[i].size ensures FileByte(sb, Resized(fs, inum, size), i, k) == FileByte(sb, fs, i, k) {
      ResizedByte(sb, fs, inum, size, i, k);
    }
  }
}
