/** The on-disk format of fs.h in absolute terms.  The disk is one array of bytes;
    which of them hold an inode, its fields, a bit of the free map and the bytes of
    a file is said by plain arithmetic, and the blocks and slots of the file system
    are shown to be those places. */
module FsFormat {
  import opened Types
  import opened Blocks
  import opened FsLogged
  import opened FsState
  import opened FsWrite

  // ----- bytes, shorts and words of the disk, low byte first

  function DiskByte(blocks: seq<Block>, a: nat): Byte
    requires a < 512 * |blocks|
  {
    blocks[a / 512][a % 512]
  }

  function U16(blocks: seq<Block>, a: nat): nat
    requires a + 2 <= 512 * |blocks|
  {
    var b0: int, b1: int := DiskByte(blocks, a), DiskByte(blocks, a + 1);
    b0 + 256 * b1
  }

  function U32(blocks: seq<Block>, a: nat): nat
    requires a + 4 <= 512 * |blocks|
  {
    U16(blocks, a) + 65536 * U16(blocks, a + 2)
  }

  lemma WordPlace(blocks: seq<Block>, c: nat, i: nat)
    requires c < |blocks| && i < 128
    ensures U32(blocks, 512 * c + 4 * i) == WordAt(blocks[c], i)
    ensures U16(blocks, 512 * c + 4 * i) == WordAt(blocks[c], i) % 65536
    ensures U16(blocks, 512 * c + 4 * i + 2) == WordAt(blocks[c], i) / 65536
  {
    hide DiskByte;
    BytePlace(blocks, c, 4 * i);
    BytePlace(blocks, c, 4 * i + 1);
    BytePlace(blocks, c, 4 * i + 2);
    BytePlace(blocks, c, 4 * i + 3);
    Halves(U16(blocks, 512 * c + 4 * i), U16(blocks, 512 * c + 4 * i + 2));
  }

  lemma Halves(lo: nat, hi: nat)
    requires lo < 65536
    ensures (lo + 65536 * hi) % 65536 == lo && (lo + 65536 * hi) / 65536 == hi
  {
  }

  lemma BytePlace(blocks: seq<Block>, c: nat, k: nat)
    requires c < |blocks| && k < 512
    ensures 512 * c + k < 512 * |blocks| && DiskByte(blocks, 512 * c + k) == blocks[c][k]
  {
    assert (512 * c + k) / 512 == c && (512 * c + k) % 512 == k;
  }

  // ----- inodes: 64 bytes each, from byte 1024 on

  lemma InodeAddress(i: nat)
    ensures 512 * IBlock(i) + 64 * (i % IPB) == 1024 + 64 * i
  {
  }

  lemma InodeWordPlace(blocks: seq<Block>, i: nat, w: nat)
    requires IBlock(i) < |blocks| && w < 16
    ensures 1024 + 64 * i + 64 <= 512 * |blocks|
    ensures var a, x := 1024 + 64 * i + 4 * w, WordAt(blocks[IBlock(i)], 16 * (i % IPB) + w);
            U32(blocks, a) == x && U16(blocks, a) == x % 65536 && U16(blocks, a + 2) == x / 65536
  {
    hide WordAt, U16, U32;
    InodeAddress(i);
    WordPlace(blocks, IBlock(i), 16 * (i % IPB) + w);
    assert 512 * IBlock(i) + 4 * (16 * (i % IPB) + w) == 1024 + 64 * i + 4 * w;
  }

  /** Type, major, minor, link count, size and addresses of inode i, in that order. */
  lemma InodePlace(blocks: seq<Block>, i: nat)
    requires IBlock(i) < |blocks|
    ensures 1024 + 64 * i + 64 <= 512 * |blocks|
    ensures var ino, a := DinodeAt(blocks[IBlock(i)], i % IPB), 1024 + 64 * i;
            && ino.kind == U16(blocks, a) && ino.major == U16(blocks, a + 2) && ino.minor == U16(blocks, a + 4)
            && ino.nlink == U16(blocks, a + 6) && ino.size == U32(blocks, a + 8) && |ino.addrs| == 13
            && forall j :: 0 <= j < 13 ==> ino.addrs[j] == U32(blocks, a + 12 + 4 * j)
  {
    hide WordAt, U16, U32;
    InodeWordPlace(blocks, i, 0);
    InodeWordPlace(blocks, i, 1);
    InodeWordPlace(blocks, i, 2);
    forall j | 0 <= j < 13 ensures U32(blocks, 1024 + 64 * i + 12 + 4 * j) == WordAt(blocks[IBlock(i)], 16 * (i % IPB) + 3 + j) {
      InodeWordPlace(blocks, i, j + 3);
      assert 1024 + 64 * i + 12 + 4 * j == 1024 + 64 * i + 4 * (j + 3);
    }
  }

  lemma SetWordBytes(b: Block, i: nat, w: Word, k: nat)
    requires i < WORDS && k < 512 && !(4 * i <= k < 4 * i + 4)
    ensures SetWord(b, i, w)[k] == b[k]
  {
  }

  lemma {:induction false} PutInodeBytes(b: Block, slot: nat, ino: Inode, n: nat, k: nat)
    requires slot < IPB && |ino.addrs| == NDIRECT + 1 && n <= 16 && k < 512 && !(64 * slot <= k < 64 * slot + 64)
    ensures PutInode(b, slot, ino, n)[k] == b[k]
  {
    hide SetWord;
    if n > 0 {
      PutInodeBytes(b, slot, ino, n - 1, k);
      SetWordBytes(PutInode(b, slot, ino, n - 1), 16 * slot + n - 1, InodeWord(ino, n - 1), k);
    }
  }

  /** iupdate changes no byte of the disk outside the inode's 64. */
  lemma StoredBytes(fs: Fs, inum: nat, a: nat)
    requires inum < |fs.inodes| && |fs.inodes[inum].addrs| == NDIRECT + 1 && IBlock(inum) < |fs.blocks|
    requires a < 512 * |fs.blocks| && !(1024 + 64 * inum <= a < 1024 + 64 * inum + 64)
    ensures DiskByte(Stored(fs, inum).blocks, a) == DiskByte(fs.blocks, a)
  {
    hide PutInode;
    InodeAddress(inum);
    if a / 512 == IBlock(inum) {
      PutInodeBytes(fs.blocks[IBlock(inum)], inum % IPB, fs.inodes[inum], 16, a % 512);
    }
  }

  // ----- the free map: one bit for each block, from block ninodes / 8 + 3 on

  const POWERS: seq<nat> := [1, 2, 4, 8, 16, 32, 64, 128]

  lemma BitOfByte(x: Byte, k: nat)
    requires k < 8
    ensures Bit(x, k) <==> x / POWERS[k] % 2 == 1
  {
    BitIsQuotient(x, k);
    assert PowerOf2(4) == 16 && PowerOf2(7) == 8 * PowerOf2(4);
  }

  lemma {:induction false} BitIsQuotient(x: nat, k: nat)
    ensures PowerOf2(k) > 0 && (Bit(x, k) <==> x / PowerOf2(k) % 2 == 1)
  {
    if k > 0 {
      BitIsQuotient(x / 2, k - 1);
      Quotients(x, PowerOf2(k - 1));
    }
  }

  lemma Quotients(x: nat, p: nat)
    requires p > 0
    ensures x / 2 / p == x / (2 * p)
  {
    var q, r := x / (2 * p), x % (2 * p);
    assert x == 2 * p * q + r;
    assert x / 2 == p * q + r / 2;
    assert r / 2 < p;
    QuotientIs(x / 2, p, q, r / 2);
  }

  lemma Multiple(p: nat, n: int)
    requires p > 0
    ensures (n >= 1 ==> p * n >= p) && (n <= -1 ==> p * n <= 0 - p)
  {
  }

  lemma QuotientIs(x: nat, p: nat, q: nat, r: nat)
    requires p > 0 && x == p * q + r && r < p
    ensures x / p == q
  {
    var d, m := x / p, x % p;
    assert p * (d - q) == r - m;
    Multiple(p, d - q);
  }

  lemma MapPlace(sb: Super, fs: Fs, b: nat)
    requires BBlock(sb, b) < |fs.blocks|
    ensures 512 * (sb.ninodes / 8 + 3) + b / 8 < 512 * |fs.blocks|
    ensures Used(sb, fs, b) <==> DiskByte(fs.blocks, 512 * (sb.ninodes / 8 + 3) + b / 8) / POWERS[b % 8] % 2 == 1
  {
    var a := 512 * (sb.ninodes / 8 + 3) + b / 8;
    assert a == 512 * BBlock(sb, b) + b % BPB / 8 && b % BPB % 8 == b % 8;
    BytePlace(fs.blocks, BBlock(sb, b), b % BPB / 8);
    BitOfByte(DiskByte(fs.blocks, a), b % 8);
  }

  // ----- the order of the parts

  /** The boot block and the super block, then the inodes, then the free map. */
  lemma PartsInOrder(sb: Super)
    ensures forall i :: 0 <= i < sb.ninodes ==> 2 <= IBlock(i) <= sb.ninodes / 8 + 2
    ensures forall b :: 0 <= b < sb.size ==> sb.ninodes / 8 + 3 <= BBlock(sb, b) <= sb.ninodes / 8 + 3 + b / 4096
  {
  }

  lemma MapAboveSuper(sb: Super, b: nat)
    ensures BBlock(sb, b) >= 3
  {
  }

  lemma InodeAboveSuper(i: nat)
    ensures IBlock(i) >= 2
  {
  }

  /** writei never logs the boot block or the super block, nor anything past the end. */
  lemma WriteAboveSuper(sb: Super, fs: Fs, reserved: set<nat>, owner0: map<nat, Slot>, owner: map<nat, Slot>, logged: set<nat>,
                        inum: nat, off: nat, n: nat, grew: bool)
    requires Owned(sb, fs, reserved, owner, {}, {}) && inum < sb.ninodes
    requires WriteiLogs(sb, {}, logged, owner0, owner, inum, off, n, grew)
    ensures forall c :: c in logged ==> 2 <= c < sb.size
  {
    hide Ref, SlotOk, BitOk, IBlock, BBlock;
    InodeAboveSuper(inum);
    assert IBlock(inum) < sb.size;
    forall c | c in logged ensures 2 <= c < sb.size {
      if c in owner {
        assert OwnerOk(sb, fs, reserved, owner, {}, {}, c);
      } else if InMap(sb, owner0, owner, c) {
        var x :| NewBlock(owner0, owner, x) && BBlock(sb, x) == c;
        assert OwnerOk(sb, fs, reserved, owner, {}, {}, x);
        MapAboveSuper(sb, x);
      }
    }
  }

  /** Nor does itrunc. */
  lemma TruncAboveSuper(sb: Super, reserved: set<nat>, logged: set<nat>, inum: nat)
    requires LayoutOk(sb, reserved) && inum < sb.ninodes
    requires forall c :: c in logged ==> c == IBlock(inum) || IsMapBlock(sb, c)
    ensures forall c :: c in logged ==> 2 <= c < sb.size
  {
    InodeAboveSuper(inum);
    forall c | c in logged && c != IBlock(inum) ensures 2 <= c < sb.size {
      var b :| 0 <= b < sb.size && BBlock(sb, b) == c;
      MapAboveSuper(sb, b);
    }
  }

  // ----- files

  /** Block n of file i: its first twelve addresses are in the inode, the others in
      the block that the thirteenth names. */
  function BlockNo(blocks: seq<Block>, i: nat, n: nat): nat
    requires 1024 + 64 * i + 64 <= 512 * |blocks| && n < 140
  {
    if n < 12 then U32(blocks, 1024 + 64 * i + 12 + 4 * n)
    else
      var ind := U32(blocks, 1024 + 64 * i + 60);
      if 0 < ind < |blocks| then U32(blocks, 512 * ind + 4 * (n - 12)) else 0
  }

  function ByteOnDisk(blocks: seq<Block>, i: nat, k: nat): Byte
    requires 1024 + 64 * i + 64 <= 512 * |blocks| && k < 140 * 512
  {
    var c := BlockNo(blocks, i, k / 512);
    if c < |blocks| then DiskByte(blocks, 512 * c + k % 512) else 0
  }

  lemma BlockPlace(sb: Super, fs: Fs, i: nat, n: nat)
    requires Shaped(sb, fs) && i < sb.ninodes && Synced(sb, fs, i) && n < MAXFILE
    ensures 1024 + 64 * i + 64 <= 512 * |fs.blocks| && BlockOf(sb, fs, i, n) == BlockNo(fs.blocks, i, n)
  {
    hide WordAt, U16, U32, DinodeAt;
    InodePlace(fs.blocks, i);
    var ind := fs.inodes[i].addrs[12];
    if n >= 12 && 0 < ind < |fs.blocks| { WordPlace(fs.blocks, ind, n - 12); }
  }

  /** The bytes of a file are where a reader of the disk would look for them. */
  lemma ContentOnDisk(sb: Super, fs: Fs, i: nat)
    requires Shaped(sb, fs) && i < sb.ninodes && FileOk(sb, fs, i)
    ensures 1024 + 64 * i + 64 <= 512 * |fs.blocks|
    ensures |Content(sb, fs, i)| == U32(fs.blocks, 1024 + 64 * i + 8) <= 140 * 512
    ensures forall k :: 0 <= k < |Content(sb, fs, i)| ==> Content(sb, fs, i)[k] == ByteOnDisk(fs.blocks, i, k)
  {
    hide U16, U32, DinodeAt, BlockNo, Ref, Dense;
    InodePlace(fs.blocks, i);
    forall k | 0 <= k < |Content(sb, fs, i)| ensures Content(sb, fs, i)[k] == ByteOnDisk(fs.blocks, i, k) {
      BlockPlace(sb, fs, i, k / 512);
      var c := BlockNo(fs.blocks, i, k / 512);
      if c < |fs.blocks| { BytePlace(fs.blocks, c, k % 512); }
    }
  }
}
