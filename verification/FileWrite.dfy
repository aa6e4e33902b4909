/** filewrite of file.c: a long write as a series of transactions, and how many
    sectors each of them logs. */
module FileWrite {
  import opened Types
  import opened Blocks
  import opened FsCount
  import opened FsLogged
  import opened FsState
  import opened FsWrite
  import FS = Inodes
  import LM = LogMachine

  /** Bytes per transaction: ((LOGSIZE-1-1-2) / 2) * 512. */
  const CHUNK := (LM.LOGSIZE - 1 - 1 - 2) / 2 * 512

  // ----- counting what one transaction logs

  /** With a one-block free map, a transaction of filewrite logs at most 14 data
      blocks, the indirect block, the free map and the inode: 17 sectors. */
  lemma ChunkBound(size: nat, off: nat, n: nat)
    requires 0 < n <= CHUNK
    ensures LogCount(size, off, n) <= 17
  {
  }

  /** Inside the file it logs the blocks it touches, so it stays within
      MAXOPBLOCKS if and only if they are at most 10. */
  lemma InsideCount(size: nat, off: nat, n: nat)
    requires n > 0 && off + n <= size
    ensures LogCount(size, off, n) == BlocksFor(off + n) - off / BSIZE
    ensures LogCount(size, off, n) > LM.MAXOPBLOCKS <==> BlocksFor(off + n) - off / BSIZE > 10
  {
  }

  /** A full chunk is always more than MAXOPBLOCKS, wherever it goes. */
  lemma FullChunkExceeds(size: nat, off: nat)
    ensures LogCount(size, off, CHUNK) > LM.MAXOPBLOCKS
  {
  }

  /** And it is 17 exactly when it starts inside a block, grows the file, and adds
      data and indirect entries. */
  lemma FullChunkMost(size: nat, off: nat)
    requires off <= size
    ensures LogCount(size, off, CHUNK) == 17 <==>
            off % BSIZE != 0 && BlocksFor(off + CHUNK) > BlocksFor(size) && BlocksFor(off + CHUNK) > NDIRECT
  {
  }

  lemma ChunkLogged(sb: Super, fs0: Fs, fs: Fs, reserved: set<nat>, owner0: map<nat, Slot>, owner: map<nat, Slot>,
                    logged: set<nat>, inum: nat, off: nat, src: seq<Byte>)
    requires FsOk(sb, fs0, reserved, owner0) && FsOk(sb, fs, reserved, owner) && inum < sb.ninodes && sb.size <= BPB && src != []
    requires Shaped(sb, fs0) && WriteEffect(sb, fs0, fs, inum, off, src)
    requires WriteiLogs(sb, {}, logged, owner0, owner, inum, off, |src|, off + |src| > fs0.inodes[inum].size)
    ensures |logged| == LogCount(fs0.inodes[inum].size, off, |src|)
  {
    hide Owned, Dense, Synced, WriteiLogs, FileByte;
    ContentSize(sb, fs0, inum);
    ContentSize(sb, fs, inum);
    assert |Splice(Content(sb, fs0, inum), off, src)| == NewSize(fs0.inodes[inum].size, off, |src|);
    CountLogged(sb, fs0, fs, reserved, owner0, owner, logged, inum, off, |src|);
  }

  /** Such a transaction, alone in the log, always finds room, also with the log
      size mkfs writes, which equals LOGSIZE. */
  lemma ChunkFitsLog(l: LM.Layout, s: LM.State, sectors: set<nat>)
    requires LM.Distinct(s.lh) && (forall i :: 0 <= i < |s.lh| ==> s.lh[i] in sectors) && |sectors| <= 17
    requires l.size >= LM.LOGSIZE
    ensures LM.SizeGuardPasses(l, s)
  {
    DistinctBound(s.lh, sectors);
  }

  lemma {:induction false} DistinctBound(h: seq<Word>, sectors: set<nat>)
    requires LM.Distinct(h) && forall i :: 0 <= i < |h| ==> h[i] in sectors
    ensures |h| <= |sectors|
  {
    if h != [] {
      DistinctBound(h[1..], sectors - {h[0]});
    }
  }

  // ----- the loop

  /** Done(n): all n bytes.  Failed: -1.  ToDevice: the device switch takes over. */
  datatype FileResult = Done(n: nat) | Failed | ToDevice | Panicked

  class OpenFile {
    const ip: nat
    const writable: bool
    var off: Word
  }

  /** Two writes back to back are one. */
  lemma SpliceTwice(c: seq<Byte>, off: nat, a: seq<Byte>, b: seq<Byte>)
    requires off <= |c|
    ensures off + |a| <= |Splice(c, off, a)|
    ensures Splice(Splice(c, off, a), off + |a|, b) == Splice(c, off, a + b)
  {
    var d := Splice(c, off, a);
    assert d[..off + |a|] == c[..off] + a;
    if off + |a| + |b| < |d| { assert d[off + |a| + |b|..] == c[off + |a| + |b|..]; }
  }

  lemma EffectCompose(sb: Super, fs0: Fs, fs1: Fs, fs2: Fs, inum: nat, off: nat, a: seq<Byte>, b: seq<Byte>)
    requires WriteEffect(sb, fs0, fs1, inum, off, a) && WriteEffect(sb, fs1, fs2, inum, off + |a|, b)
    ensures WriteEffect(sb, fs0, fs2, inum, off, a + b)
  {
    hide FileOk, Content, Splice;
    ContentSize(sb, fs0, inum);
    SpliceTwice(Content(sb, fs0, inum), off, a, b);
  }

  lemma SizeFits(sb: Super, fs: Fs, reserved: set<nat>, owner: map<nat, Slot>, inum: nat)
    requires FsOk(sb, fs, reserved, owner) && inum < sb.ninodes
    ensures Shaped(sb, fs) && fs.inodes[inum].size <= MAXFILE * BSIZE
  {
    assert FileOk(sb, fs, inum);
  }

  lemma ContentSize(sb: Super, fs: Fs, inum: nat)
    requires Shaped(sb, fs) && inum < sb.ninodes && FileOk(sb, fs, inum)
    ensures fs.inodes[inum].size <= MAXFILE * BSIZE && |Content(sb, fs, inum)| == fs.inodes[inum].size
  {
  }

  /** What has happened after the first i bytes of addr. */
  ghost predicate WrittenSoFar(sb: Super, fs0: Fs, fs: Fs, inum: nat, off: nat, addr: seq<Byte>, i: nat) {
    i <= |addr| && if i == 0 then fs == fs0 else WriteEffect(sb, fs0, fs, inum, off, addr[..i])
  }

  lemma SizeAfter(sb: Super, fs0: Fs, fs: Fs, inum: nat, off: nat, addr: seq<Byte>, i: nat)
    requires Shaped(sb, fs0) && Shaped(sb, fs) && inum < sb.ninodes && WrittenSoFar(sb, fs0, fs, inum, off, addr, i)
    ensures (off + i > fs.inodes[inum].size) <==> i == 0 && off > fs0.inodes[inum].size
    ensures i > 0 ==> off <= fs0.inodes[inum].size
    ensures fs0.inodes[inum].size <= fs.inodes[inum].size
  {
    if i > 0 {
      assert |Content(sb, fs, inum)| >= off + i;
      assert |Content(sb, fs, inum)| >= |Content(sb, fs0, inum)|;
    }
  }

  lemma DeviceStays(sb: Super, fs0: Fs, fs: Fs, inum: nat, off: nat, addr: seq<Byte>, i: nat)
    requires Shaped(sb, fs0) && Shaped(sb, fs) && inum < sb.ninodes && WrittenSoFar(sb, fs0, fs, inum, off, addr, i)
    ensures fs.inodes[inum].kind == fs0.inodes[inum].kind
  {
    hide FileOk, Content;
  }

  lemma ChunkDone(sb: Super, fs0: Fs, fs: Fs, fs': Fs, inum: nat, off: nat, addr: seq<Byte>, i: nat, n1: nat)
    requires WrittenSoFar(sb, fs0, fs, inum, off, addr, i) && n1 >= 1 && i + n1 <= |addr|
    requires WriteEffect(sb, fs, fs', inum, off + i, addr[i..i + n1])
    ensures WrittenSoFar(sb, fs0, fs', inum, off, addr, i + n1)
  {
    hide WriteEffect;
    assert addr[..i] + addr[i..i + n1] == addr[..i + n1];
    assert i == 0 ==> addr[i..i + n1] == addr[..n1];
    if i > 0 { EffectCompose(sb, fs0, fs, fs', inum, off, addr[..i], addr[i..i + n1]); }
  }

  /** The bytes in chunk j of a write of n bytes. */
  function ChunkLen(n: nat, j: nat): int {
    if n - j * CHUNK > CHUNK then CHUNK else n - j * CHUNK
  }

  /** The size of the file when chunk j is written. */
  function SizeBefore(size: nat, off: nat, j: nat): nat {
    if j == 0 || off + j * CHUNK <= size then size else off + j * CHUNK
  }

  /** Transaction j logs exactly as many sectors as the sizes say. */
  predicate Exact(size: nat, off: nat, n: nat, transactions: seq<set<nat>>, j: nat)
    requires j < |transactions|
  {
    |transactions[j]| == LogCount(SizeBefore(size, off, j), off + j * CHUNK, if ChunkLen(n, j) >= 0 then ChunkLen(n, j) else 0)
    && |transactions[j]| <= 17
  }

  lemma SizeThen(sb: Super, fs0: Fs, fs: Fs, inum: nat, off: nat, addr: seq<Byte>, j: nat)
    requires Shaped(sb, fs0) && Shaped(sb, fs) && inum < sb.ninodes && j * CHUNK <= |addr|
    requires WrittenSoFar(sb, fs0, fs, inum, off, addr, j * CHUNK)
    ensures fs.inodes[inum].size == SizeBefore(fs0.inodes[inum].size, off, j)
  {
    hide Dense, Synced, FileByte;
    if j > 0 {
      ContentSize(sb, fs, inum);
      ContentSize(sb, fs0, inum);
      assert |Splice(Content(sb, fs0, inum), off, addr[..j * CHUNK])| == SizeBefore(fs0.inodes[inum].size, off, j);
    }
  }

  /** How much of a write that fails is written: nothing if it may not start, else the
      whole chunks that fit below the maximum. */
  function WrittenAtFailure(writable: bool, size: nat, off: nat): nat {
    if !writable || off > size || off > MAXFILE * BSIZE then 0 else (MAXFILE * BSIZE - off) / CHUNK * CHUNK
  }

  lemma NothingAtFailure(size: nat, off: nat)
    ensures WrittenAtFailure(false, size, off) == 0
  {
  }

  /** Chunk k is refused. */
  lemma FailsThere(size: nat, off: nat, k: nat, n1: nat)
    requires n1 <= CHUNK && (k > 0 ==> off <= size && off + k * CHUNK <= MAXFILE * BSIZE) && size <= MAXFILE * BSIZE
    requires (off > size && k == 0) || off + k * CHUNK + n1 > MAXFILE * BSIZE
    ensures WrittenAtFailure(true, size, off) == k * CHUNK
  {
    assert CHUNK == 6656;
    if off <= size { ChunksBelow(MAXFILE * BSIZE - off, k); }
  }

  lemma ChunksBelow(room: nat, k: nat)
    requires k * 6656 <= room < k * 6656 + 6656
    ensures room / 6656 == k
  {
  }

  /** The same, from the bytes written before it. */
  lemma FailsAt(size: nat, off: nat, i: nat, n1: nat)
    requires i % CHUNK == 0 && n1 <= CHUNK && (i > 0 ==> off <= size && off + i <= MAXFILE * BSIZE) && size <= MAXFILE * BSIZE
    requires (off > size && i == 0) || off + i + n1 > MAXFILE * BSIZE
    ensures WrittenAtFailure(true, size, off) == i
  {
    assert CHUNK == 6656;
    FailsThere(size, off, i / 6656, n1);
  }

  /** One round of the loop: the next chunk, in a transaction of its own. */
  method WriteChunk(fs: FS.FileSystem, f: OpenFile, addr: seq<Byte>, i: nat, ghost fs0: Fs, ghost off0: nat, ghost transactions: seq<set<nat>>)
    returns (w: FS.WriteResult, n1: nat, ghost more: seq<set<nat>>)
    requires FsOk(fs.sb, fs.Abs(), fs.reserved, fs.owner) && f.ip < fs.sb.ninodes && Shaped(fs.sb, fs0)
    requires i < |addr| < 0x8000_0000 && f.off == off0 + i && i == |transactions| * CHUNK
    requires WrittenSoFar(fs.sb, fs0, fs.Abs(), f.ip, off0, addr, i)
    requires fs.sb.size <= BPB ==> forall j :: 0 <= j < |transactions| ==>
               Exact(fs0.inodes[f.ip].size, off0, |addr|, transactions, j)
    modifies fs`blocks, fs`inodes, fs`owner, fs`writes
    ensures n1 == if |addr| - i > CHUNK then CHUNK else |addr| - i
    ensures !w.Panicked? ==> FsOk(fs.sb, fs.Abs(), fs.reserved, fs.owner)
    ensures !w.Panicked? ==> WrittenSoFar(fs.sb, fs0, fs.Abs(), f.ip, off0, addr, if w.Wrote? then i + n1 else i)
    ensures w.Wrote? ==> w.n == n1 && |more| == |transactions| + 1
    ensures !w.Wrote? ==> more == transactions
    ensures fs.sb.size <= BPB ==> forall j :: 0 <= j < |more| ==> Exact(fs0.inodes[f.ip].size, off0, |addr|, more, j)
    ensures w.ToDevice? ==> fs0.inodes[f.ip].kind == FS.T_DEV
    ensures !w.Panicked? && !w.ToDevice? ==>
              (w.Refused? <==> (i == 0 && off0 > fs0.inodes[f.ip].size) || off0 + i + n1 > MAXFILE * BSIZE)
    ensures w.Wrote? ==> off0 <= fs0.inodes[f.ip].size
    ensures w.Panicked? ==> fs.DiskFull(fs.Abs()) && off0 + |addr| > fs0.inodes[f.ip].size
  {
    hide Owned, WriteEffect, FileOk, LogCount, WriteiLogs, Recorded, Sectors, Exact;
    NoSectors();
    n1 := if |addr| - i > CHUNK then CHUNK else |addr| - i;
    more := transactions;
    ghost var before, owner0, size0 := fs.Abs(), fs.owner, fs0.inodes[f.ip].size;
    OwnedShaped(fs.sb, before, fs.reserved, owner0);
    SizeAfter(fs.sb, fs0, before, f.ip, off0, addr, i);
    SizeThen(fs.sb, fs0, before, f.ip, off0, addr, |transactions|);
    DeviceStays(fs.sb, fs0, before, f.ip, off0, addr, i);
    fs.writes := [];                                  // begin_op, alone in the log
    w := fs.Writei(f.ip, addr[i..i + n1], f.off);
    if w.Wrote? {
      if fs.sb.size <= BPB {
        ChunkLogged(fs.sb, before, fs.Abs(), fs.reserved, owner0, fs.owner, fs.Logged(), f.ip, off0 + i, addr[i..i + n1]);
        Tallied(size0, off0, |addr|, transactions, fs.Logged());
      }
      more := transactions + [fs.Logged()];
      ChunkDone(fs.sb, fs0, before, fs.Abs(), f.ip, off0, addr, i, n1);
    }
  }

  /** filewrite to an inode.  It succeeds exactly when the file reaches up to the
      offset and the result fits, unless the disk is full, which a write inside
      the file never meets; then all of addr is spliced in.  Otherwise the leading
      chunks that fit are.  What each transaction logs is known beforehand. */
  method Filewrite(fs: FS.FileSystem, f: OpenFile, addr: seq<Byte>) returns (r: FileResult, ghost transactions: seq<set<nat>>)
    requires FsOk(fs.sb, fs.Abs(), fs.reserved, fs.owner) && f.ip < fs.sb.ninodes && |addr| < 0x8000_0000
    modifies fs`blocks, fs`inodes, fs`owner, fs`writes, f`off
    ensures fs.sb.size <= BPB ==> forall j :: 0 <= j < |transactions| ==>
              f.ip < |old(fs.inodes)| && Exact(old(fs.inodes[f.ip].size), old(f.off), |addr|, transactions, j)
    ensures r.Done? ==> f.writable && r.n == |addr| && f.off == old(f.off) + |addr|
    ensures r.Failed? ==> f.off == old(f.off) + WrittenAtFailure(f.writable, old(fs.inodes[f.ip].size), old(f.off))
    ensures r.Done? || r.Failed? ==> old(f.off) <= f.off && FsOk(fs.sb, fs.Abs(), fs.reserved, fs.owner)
    ensures r.Done? || r.Failed? ==>
              WrittenSoFar(fs.sb, old(fs.Abs()), fs.Abs(), f.ip, old(f.off), addr, f.off - old(f.off))
    ensures r.ToDevice? ==> f.writable && old(fs.inodes[f.ip].kind) == FS.T_DEV
    ensures r.Panicked? ==> f.writable && fs.DiskFull(fs.Abs()) && old(f.off) + |addr| > old(fs.inodes[f.ip].size)
    ensures !r.ToDevice? && !r.Panicked? ==>
              (r.Failed? <==> !f.writable || (addr != [] && (old(f.off) > old(fs.inodes[f.ip].size) || old(f.off) + |addr| > MAXFILE * BSIZE)))
  {
    hide FsOk, WrittenSoFar, Exact, WrittenAtFailure;
    transactions := [];
    ghost var fs0, off0 := fs.Abs(), f.off;
    SizeFits(fs.sb, fs0, fs.reserved, fs.owner, f.ip);
    ghost var size0 := fs.inodes[f.ip].size;
    NothingAtFailure(size0, off0);
    NothingWritten(fs.sb, fs0, f.ip, off0, addr);
    if !f.writable { return Failed, transactions; }
    var i, n := 0, |addr|;
    while i < n
      invariant i <= n && f.off == off0 + i && FsOk(fs.sb, fs.Abs(), fs.reserved, fs.owner)
      invariant WrittenSoFar(fs.sb, fs0, fs.Abs(), f.ip, off0, addr, i)
      invariant i > 0 ==> off0 + i <= MAXFILE * BSIZE && off0 <= size0
      invariant i < n ==> i == |transactions| * CHUNK
      invariant fs.sb.size <= BPB ==> forall j :: 0 <= j < |transactions| ==> Exact(size0, off0, n, transactions, j)
    {
      var w, n1;
      ghost var more;
      w, n1, more := WriteChunk(fs, f, addr, i, fs0, off0, transactions);
      match w {
        case ToDevice => return ToDevice, transactions;
        case Panicked => return Panicked, transactions;
        case Refused =>
          FailsThere(size0, off0, |transactions|, n1);
          return Failed, transactions;
        case Wrote(k) =>
          transactions := more;
          f.off := f.off + k;
          i := i + k;
      }
    }
    return Done(n), transactions;
  }

  lemma NothingWritten(sb: Super, fs: Fs, inum: nat, off: nat, addr: seq<Byte>)
    ensures WrittenSoFar(sb, fs, fs, inum, off, addr, 0)
  {
  }

  lemma Tallied(size: nat, off: nat, n: nat, transactions: seq<set<nat>>, logged: set<nat>)
    requires forall j :: 0 <= j < |transactions| ==> Exact(size, off, n, transactions, j)
    requires var j := |transactions|; j * CHUNK < n && |logged| == LogCount(SizeBefore(size, off, j), off + j * CHUNK, ChunkLen(n, j))
    ensures forall j :: 0 <= j < |transactions| + 1 ==> Exact(size, off, n, transactions + [logged], j)
  {
    hide LogCount;
    var more, last := transactions + [logged], |transactions|;
    ChunkBound(SizeBefore(size, off, last), off + last * CHUNK, ChunkLen(n, last));
    forall j | 0 <= j < |more| ensures Exact(size, off, n, more, j) {
      if j < last { assert Exact(size, off, n, transactions, j) && more[j] == transactions[j]; }
    }
  }
}
