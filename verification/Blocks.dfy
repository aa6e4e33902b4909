/** Disk sectors and the little-endian words stored in them. */
module Blocks {
  import opened Types

  const BSIZE := 512
  const WORDS := 128
  const WORD_LIMIT := 0x1_0000_0000

  type Block = b: seq<Byte> | |b| == 512 witness seq(512, i => 0)

  function ZeroBlock(): (b: Block) {
    seq(512, i => 0)
  }

  /** The i-th 32-bit word of a sector. */
  function WordAt(b: Block, i: nat): (w: Word)
    requires i < WORDS
  {
    var b0: int, b1: int, b2: int, b3: int := b[4 * i], b[4 * i + 1], b[4 * i + 2], b[4 * i + 3];
    b0 + 0x100 * b1 + 0x1_0000 * b2 + 0x100_0000 * b3
  }

  /** The four bytes of a word, low byte first. */
  function ByteOf(w: Word, k: nat): (b: Byte)
    requires k < 4
  {
    match k
    case 0 => w % 0x100
    case 1 => w / 0x100 % 0x100
    case 2 => w / 0x1_0000 % 0x100
    case _ => w / 0x100_0000
  }

  lemma BytesOfWord(w: Word)
    ensures w == ByteOf(w, 0) as int + 0x100 * ByteOf(w, 1) as int
                 + 0x1_0000 * ByteOf(w, 2) as int + 0x100_0000 * ByteOf(w, 3) as int
  {
    var q1, q2 := w / 0x100, w / 0x1_0000;
    assert q2 == q1 / 0x100 && w / 0x100_0000 == q2 / 0x100;
  }

  function SetWord(b: Block, i: nat, w: Word): (r: Block)
    requires i < WORDS
    ensures WordAt(r, i) == w
    ensures forall j :: 0 <= j < WORDS && j != i ==> WordAt(r, j) == WordAt(b, j)
  {
    hide ByteOf;
    BytesOfWord(w);
    b[4 * i := ByteOf(w, 0)][4 * i + 1 := ByteOf(w, 1)][4 * i + 2 := ByteOf(w, 2)][4 * i + 3 := ByteOf(w, 3)]
  }

  // ----- bits, for the free map

  const BPB := 4096

  /** (x & 1 << k) != 0 */
  predicate Bit(x: nat, k: nat) {
    if k == 0 then x % 2 == 1 else Bit(x / 2, k - 1)
  }

  function PowerOf2(n: nat): nat {
    if n == 0 then 1 else 2 * PowerOf2(n - 1)
  }

  /** x | 1 << k, or x & ~(1 << k), in an n-bit number. */
  function WithBit(x: nat, k: nat, on: bool, n: nat): (y: nat)
    requires k < n && x < PowerOf2(n)
    ensures y < PowerOf2(n) && Bit(y, k) == on
    ensures forall j: nat :: j != k ==> Bit(y, j) == Bit(x, j)
  {
    if k == 0 then x - x % 2 + (if on then 1 else 0) else 2 * WithBit(x / 2, k - 1, on, n - 1) + x % 2
  }

  predicate BitAt(b: Block, i: nat)
    requires i < BPB
  {
    Bit(b[i / 8], i % 8)
  }

  function SetBit(b: Block, i: nat, on: bool): (r: Block)
    requires i < BPB
    ensures BitAt(r, i) == on
    ensures forall j :: 0 <= j < BPB && j != i ==> BitAt(r, j) == BitAt(b, j)
  {
    assert PowerOf2(8) == 256;
    b[i / 8 := WithBit(b[i / 8], i % 8, on, 8)]
  }
}
