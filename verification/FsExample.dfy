/** A small disk, empty but for one file of no bytes, and what a write to it logs. */
module FsExample {
  import opened Types
  import opened Blocks
  import opened FsCount
  import opened FsLogged
  import opened FsState
  import opened FsWrite
  import CF = CrashFiles
  import FS = Inodes
  import FW = FileWrite
  import L = Logging
  import LM = LogMachine
  import T = Transactions

  const SMALL := Super(4096, 1)
  const FIRST_FOUR: set<nat> := {0, 1, 2, 3}
  const T_FILE := 2

  lemma {:induction false} ZeroHasNoBits(k: nat)
    ensures !Bit(0, k)
  {
    if k > 0 { ZeroHasNoBits(k - 1); }
  }

  /** The free map with the boot block, the super block, the inodes and itself. */
  function FreshMap(): Block {
    hide SetBit;
    SetBit(SetBit(SetBit(SetBit(ZeroBlock(), 0, true), 1, true), 2, true), 3, true)
  }

  lemma FreshMapBits(j: nat)
    requires j < BPB
    ensures BitAt(FreshMap(), j) <==> j < 4
  {
    hide BitAt, SetBit, ZeroBlock;
    ZeroBlockBits(j);
  }

  lemma ZeroBlockBits(j: nat)
    requires j < BPB
    ensures !BitAt(ZeroBlock(), j)
  {
    ZeroHasNoBits(j % 8);
  }

  function FreshInode(): Inode {
    Inode(T_FILE, 0, 0, 1, 0, seq<Word>(NDIRECT + 1, i => 0))
  }

  function FreshInodes(): Block {
    hide PutInode;
    PutInode(ZeroBlock(), 0, FreshInode(), 16)
  }

  /** 4096 blocks and then those of the log, whose header is empty. */
  function FreshBlocks(): seq<Block> {
    hide FreshInodes, FreshMap;
    var zero: Block := ZeroBlock();
    seq<Block>(4096 + LM.LOGSIZE, i => zero)[2 := FreshInodes()][3 := FreshMap()]
  }

  function FreshFs(): Fs {
    Fs(FreshBlocks(), [FreshInode()])
  }

  lemma FreshOwned()
    ensures Owned(SMALL, FreshFs(), FIRST_FOUR, map[], {}, {})
  {
    hide BitAt, FreshMap, FreshInodes;
    var fs := FreshFs();
    forall b | 0 <= b < SMALL.size ensures BitOk(SMALL, fs, FIRST_FOUR, map[], {}, b) {
      assert BBlock(SMALL, b) == 3 && b % BPB == b;
      assert fs.blocks[3] == FreshMap();
      FreshMapBits(b);
    }
    forall s | IsSlot(SMALL, s) ensures SlotOk(fs, map[], s) { }
  }

  lemma FreshOk()
    ensures FsOk(SMALL, FreshFs(), FIRST_FOUR, map[])
    ensures var inodes := FreshFs().inodes; |inodes| == 1 && inodes[0].kind == T_FILE && inodes[0].size == 0
  {
    hide BitAt, FreshMap, PutInode, DinodeAt, Owned;
    FreshOwned();
    var fs := FreshFs();
    OwnedShaped(SMALL, fs, FIRST_FOUR, map[]);
    DinodeRoundTrip(ZeroBlock(), 0, FreshInode(), 0);
    assert fs.blocks[2] == FreshInodes();
    assert Synced(SMALL, fs, 0);
    forall n | 0 <= n < MAXFILE ensures BlockOf(SMALL, fs, 0, n) == 0 { }
  }

  const LOG := LM.Layout(4096, LM.LOGSIZE)

  /** A new disk recovers to its one empty file. */
  lemma FreshDisk()
    ensures CF.LogApart(LOG, SMALL, FIRST_FOUR) && T.FilesAt(LOG, FreshFs().blocks, SMALL, FIRST_FOUR, FreshFs(), map[])
  {
    hide FreshMap, FreshInodes, FsOk, T.FilesOf, LM.Recovered;
    var fs := FreshFs();
    FreshOk();
    assert fs.blocks[LOG.start] == ZeroBlock();
    assert LM.GoodDisk(LOG, fs.blocks);
    LM.EmptyHeaderIsRecovered(LOG, fs.blocks);
    T.FilesOnDisk(LOG, SMALL, FIRST_FOUR, map[], fs, LM.Recovered(LOG, fs.blocks));
  }

  /** So there is a running system to which the transactions apply. */
  method FreshBoot() returns (log: L.Log, fs: FS.FileSystem)
    ensures fresh(log) && fresh(fs) && T.Mounted(log, fs) && fs.sb.size <= BPB && 18 < log.layout.size
    ensures |fs.inodes| == 1 && fs.inodes[0].kind == T_FILE && fs.inodes[0].size == 0
  {
    hide FreshFs, T.FilesAt, T.Mounted, FsOk;
    FreshDisk();
    FreshOk();
    log, fs := T.Boot(LOG, FreshFs().blocks, SMALL, FIRST_FOUR, FreshFs(), map[]);
  }

  lemma {:induction false} InjectionBounds(held: set<nat>, slots: set<Slot>, owner: map<nat, Slot>)
    requires forall c :: c in held ==> c in owner && owner[c] in slots
    requires forall c, d :: c in held && d in held && c != d ==> owner[c] != owner[d]
    ensures |held| <= |slots|
    decreases |held|
  {
    if c :| c in held {
      InjectionBounds(held - {c}, slots - {owner[c]}, owner);
    } else {
      assert held == {};
    }
  }

  ghost function Range(lo: nat, hi: nat): (s: set<nat>)
    requires lo <= hi
    ensures |s| == hi - lo && forall x :: x in s <==> lo <= x < hi
    decreases hi - lo
  {
    if lo == hi then {} else Range(lo, hi - 1) + {hi - 1}
  }

  ghost function SlotsOfFirst(n: nat): (s: set<Slot>)
    ensures |s| == n && forall x :: x in s <==> x.inum == 0 && x.pos < n
  {
    if n == 0 then {} else SlotsOfFirst(n - 1) + {Slot(0, n - 1)}
  }

  /** One inode can hold 141 blocks, so a disk of 200 with one inode is never full. */
  lemma NeverFull(sb: Super, fs: Fs, reserved: set<nat>, owner: map<nat, Slot>)
    requires Owned(sb, fs, reserved, owner, {}, {}) && sb.ninodes == 1 && sb.size >= 200 && reserved == FIRST_FOUR
    ensures exists b :: 0 <= b < sb.size && BBlock(sb, b) < |fs.blocks| && !Used(sb, fs, b)
  {
    hide Used, Ref, SlotOk, Range;
    var held := Range(4, 200);
    if b :| b in held && b !in owner {
      assert BitOk(sb, fs, reserved, owner, {}, b);
    } else {
      TooManyHeld(sb, fs, reserved, owner, held);
      assert false;
    }
  }

  lemma TooManyHeld(sb: Super, fs: Fs, reserved: set<nat>, owner: map<nat, Slot>, held: set<nat>)
    requires Owned(sb, fs, reserved, owner, {}, {}) && sb.ninodes == 1 && forall c :: c in held ==> c in owner
    ensures |held| <= 141
  {
    hide Used, Ref, SlotOk, BitOk, SlotsOfFirst;
    var slots := SlotsOfFirst(141);
    forall c | c in held ensures owner[c] in slots { assert OwnerOk(sb, fs, reserved, owner, {}, {}, c); }
    OwnerFacts(sb, fs, reserved, owner, 0);
    InjectionBounds(held, slots, owner);
  }

  /** The file with one byte in it. */
  method OneByte() returns (fs: FS.FileSystem)
    ensures fresh(fs) && fs.sb == SMALL && fs.reserved == FIRST_FOUR && FsOk(SMALL, fs.Abs(), FIRST_FOUR, fs.owner) && fs.writes == []
    ensures |fs.inodes| == 1 && fs.inodes[0].kind == T_FILE && fs.inodes[0].size == 1
  {
    hide Owned, FreshFs, FsOk, FileOk, WriteiLogs, WriteEffect, Sectors;
    FreshOk();
    fs := new FS.FileSystem(SMALL, FreshFs().blocks, FreshFs().inodes, FIRST_FOUR, map[]);
    var _ := WriteAll(fs, [65], 0);
    fs.writes := [];
  }

  /** One byte, and then a full chunk after it: a transaction of 17 sectors, which
      is more than MAXOPBLOCKS. */
  method ChunkLogsMost(chunk: seq<Byte>) returns (fs: FS.FileSystem, r: FS.WriteResult)
    requires |chunk| == FW.CHUNK
    ensures fresh(fs) && FsOk(fs.sb, fs.Abs(), fs.reserved, fs.owner) && r == FS.Wrote(|chunk|)
    ensures |fs.Logged()| == 17 > LM.MAXOPBLOCKS
  {
    hide Owned, FsOk, FileOk, WriteiLogs, WriteEffect, Sectors;
    NoSectors();
    fs := OneByte();
    ghost var before, owner0 := fs.Abs(), fs.owner;
    r := WriteAll(fs, chunk, 1);
    MostLogged(before, fs.Abs(), owner0, fs.owner, fs.Logged(), chunk);
  }

  lemma MostLogged(fs0: Fs, fs: Fs, owner0: map<nat, Slot>, owner: map<nat, Slot>, logged: set<nat>, src: seq<Byte>)
    requires FsOk(SMALL, fs0, FIRST_FOUR, owner0) && FsOk(SMALL, fs, FIRST_FOUR, owner) && |fs0.inodes| == 1 && fs0.inodes[0].size == 1
    requires WriteEffect(SMALL, fs0, fs, 0, 1, src) && WriteiLogs(SMALL, {}, logged, owner0, owner, 0, 1, |src|, true) && |src| == FW.CHUNK
    ensures |logged| == 17
  {
    hide Owned, FileOk, LogCount, WriteiLogs, WriteEffect;
    OwnedShaped(SMALL, fs0, FIRST_FOUR, owner0);
    FW.ChunkLogged(SMALL, fs0, fs, FIRST_FOUR, owner0, owner, logged, 0, 1, src);
    FW.FullChunkMost(1, 1);
  }

  /** An append to the file, which has room for it. */
  method WriteAll(fs: FS.FileSystem, src: seq<Byte>, off: Word) returns (r: FS.WriteResult)
    requires fs.sb == SMALL && fs.reserved == FIRST_FOUR && FsOk(SMALL, fs.Abs(), FIRST_FOUR, fs.owner)
    requires |fs.inodes| == 1 && fs.inodes[0].kind == T_FILE && fs.inodes[0].size == off && 0 < |src| && off + |src| <= MAXFILE * BSIZE
    modifies fs`blocks, fs`inodes, fs`owner, fs`writes
    ensures r == FS.Wrote(|src|) && FsOk(SMALL, fs.Abs(), FIRST_FOUR, fs.owner)
    ensures WriteEffect(SMALL, old(fs.Abs()), fs.Abs(), 0, off, src)
    ensures WriteiLogs(SMALL, old(fs.Logged()), fs.Logged(), old(fs.owner), fs.owner, 0, off, |src|, true)
    ensures |fs.inodes| == 1 && fs.inodes[0].kind == T_FILE && fs.inodes[0].size == off + |src|
  {
    hide Owned, WriteiLogs, Recorded, Sectors, Dense, Synced, FileByte, Used;
    OwnedShaped(SMALL, fs.Abs(), FIRST_FOUR, fs.owner);
    ghost var before := fs.Abs();
    r := fs.Writei(0, src, off);
    if r.Panicked? {
      NeverFull(SMALL, fs.Abs(), FIRST_FOUR, fs.owner);
      assert false;
    }
    OwnedShaped(SMALL, fs.Abs(), FIRST_FOUR, fs.owner);
    FW.ContentSize(SMALL, before, 0);
    FW.ContentSize(SMALL, fs.Abs(), 0);
    assert |Splice(Content(SMALL, before, 0), off, src)| == off + |src|;
  }
}
