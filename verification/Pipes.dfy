/** The pipe of pipe.c: a 512-byte ring addressed by two counters that wrap
    around at 2^32, proved to be a first-in first-out queue for any amount of
    traffic. */
module Pipes {
  import opened Types

  const PIPESIZE := 512
  const UINT := 0x1_0000_0000

  /** nwrite - nread in unsigned arithmetic. */
  function Count(nread: Word, nwrite: Word): nat {
    (nwrite - nread) % UINT
  }

  /** c++ for an unsigned counter. */
  function Next(c: Word): Word {
    (c + 1) % UINT
  }

  /** The position c % PIPESIZE. */
  function Index(c: Word): (i: nat)
    ensures i < PIPESIZE
  {
    c % PIPESIZE
  }

  /** The test nwrite == nread + PIPESIZE, in unsigned arithmetic. */
  predicate Full(nread: Word, nwrite: Word) {
    nwrite == (nread + PIPESIZE) % UINT
  }

  /** Where in the ring the k-th byte from the counter on is kept. */
  function Slot(counter: Word, k: nat): (i: nat)
    ensures i < PIPESIZE
  {
    (counter + k) % PIPESIZE
  }

  /** The bytes written and not yet read, oldest first. */
  ghost function Pending(data: seq<Byte>, nread: Word, nwrite: Word): (p: seq<Byte>)
    requires |data| == PIPESIZE
    ensures |p| == Count(nread, nwrite)
  {
    seq(Count(nread, nwrite), k requires 0 <= k < Count(nread, nwrite) => data[Slot(nread, k)])
  }

  /** What the two tests on the counters mean while they are at most 512 apart. */
  lemma FullTest(nread: Word, nwrite: Word)
    requires Count(nread, nwrite) <= PIPESIZE
    ensures Full(nread, nwrite) <==> Count(nread, nwrite) == PIPESIZE
    ensures nwrite == nread <==> Count(nread, nwrite) == 0
  {
  }

  /** 512 divides 2^32, so the counters may wrap without disturbing positions. */
  lemma WrapIsHarmless(nread: Word, nwrite: Word)
    ensures Slot(nread, Count(nread, nwrite)) == Index(nwrite)
  {
    if nwrite < nread {
      assert nread + Count(nread, nwrite) == nwrite + PIPESIZE * 0x80_0000;
    }
  }

  lemma SlotsDiffer(counter: Word, j: nat, k: nat)
    requires j < k < j + PIPESIZE
    ensures Slot(counter, j) != Slot(counter, k)
  {
  }

  /** A counter's whole range is a whole number of turns of the ring. */
  lemma WholeTurns(k: nat)
    ensures (k + UINT) % PIPESIZE == k % PIPESIZE
  {
    var q, r := k / 512, k % 512;
    assert k + UINT == 512 * (q + 0x80_0000) + r;
  }

  lemma SlotNext(counter: Word, k: nat)
    ensures Slot(Next(counter), k) == Slot(counter, k + 1)
  {
    if counter + 1 == UINT {
      WholeTurns(k);
      assert Next(counter) + k == k && counter + (k + 1) == k + UINT;
    } else {
      assert Next(counter) + k == counter + (k + 1);
    }
  }

  lemma CountAfterStore(nread: Word, nwrite: Word)
    requires Count(nread, nwrite) < PIPESIZE
    ensures Count(nread, Next(nwrite)) == Count(nread, nwrite) + 1
  {
  }

  lemma CountAfterTake(nread: Word, nwrite: Word)
    requires Count(nread, nwrite) > 0
    ensures Count(Next(nread), nwrite) == Count(nread, nwrite) - 1
  {
  }

  lemma StoreAppends(data: seq<Byte>, nread: Word, nwrite: Word, c: Byte)
    requires |data| == PIPESIZE && Count(nread, nwrite) < PIPESIZE
    ensures var data' := data[Index(nwrite) := c];
            Pending(data', nread, Next(nwrite)) == Pending(data, nread, nwrite) + [c]
  {
    hide Count, Slot, Next, Index;
    var n := Count(nread, nwrite);
    CountAfterStore(nread, nwrite);
    WrapIsHarmless(nread, nwrite);
    forall k | 0 <= k < n ensures Slot(nread, k) != Index(nwrite) { SlotsDiffer(nread, k, n); }
  }

  lemma TakeRemoves(data: seq<Byte>, nread: Word, nwrite: Word)
    requires |data| == PIPESIZE && Count(nread, nwrite) > 0
    ensures Pending(data, nread, nwrite)[0] == data[Index(nread)]
    ensures Pending(data, Next(nread), nwrite) == Pending(data, nread, nwrite)[1..]
  {
    hide Count, Slot, Next, Index;
    var n, next := Count(nread, nwrite), Next(nread);
    CountAfterTake(nread, nwrite);
    assert Slot(nread, 0) == Index(nread) by { FirstSlot(nread); }
    forall k | 0 <= k < n - 1 ensures data[Slot(next, k)] == data[Slot(nread, k + 1)] { SlotNext(nread, k); }
  }

  lemma FirstSlot(counter: Word)
    ensures Slot(counter, 0) == Index(counter)
  {
  }

  /** struct pipe, without its lock: the critical sections of its operations. */
  class Pipe {
    const data: array<Byte>
    var nread: Word
    var nwrite: Word
    var readopen: bool
    var writeopen: bool

    ghost predicate Valid()
      reads this, data
    {
      data.Length == PIPESIZE && Count(nread, nwrite) <= PIPESIZE
    }

    ghost function Contents(): seq<Byte>
      reads this, data
      requires Valid()
    {
      Pending(data[..], nread, nwrite)
    }

    constructor ()
      ensures Valid() && Contents() == [] && readopen && writeopen
    {
      data := new Byte[PIPESIZE](i => 0);
      nread, nwrite, readopen, writeopen := 0, 0, true, true;
    }

    /** The loop of pipewrite from byte i on, up to its end or a full buffer. */
    method Store(addr: seq<Byte>, i: nat) returns (j: nat)
      requires Valid() && i <= |addr|
      modifies this`nwrite, data
      ensures Valid() && i <= j <= |addr| && (j == |addr| || |Contents()| == PIPESIZE)
      ensures Contents() == old(Contents()) + addr[i..j]
    {
      hide Pending, Count, Full, Next, Index;
      j := i;
      FullTest(nread, nwrite);
      while j < |addr| && !Full(nread, nwrite)
        invariant i <= j <= |addr| && Valid() && Contents() == old(Contents()) + addr[i..j]
        invariant Full(nread, nwrite) <==> Count(nread, nwrite) == PIPESIZE
      {
        ghost var before := data[..];
        CountAfterStore(nread, nwrite);
        StoreAppends(data[..], nread, nwrite, addr[j]);
        data[Index(nwrite)] := addr[j];
        assert data[..] == before[Index(nwrite) := addr[j]];
        assert addr[i..j + 1] == addr[i..j] + [addr[j]];
        nwrite := Next(nwrite);
        j := j + 1;
        FullTest(nread, nwrite);
      }
    }

    /** The copying loop of piperead. */
    method Take(n: nat) returns (addr: seq<Byte>)
      requires Valid()
      modifies this`nread
      ensures Valid() && |addr| <= n && (|addr| == n || Contents() == [])
      ensures addr + Contents() == old(Contents())
    {
      hide Pending, Count, Full, Next, Index;
      addr := [];
      FullTest(nread, nwrite);
      while |addr| < n && nread != nwrite
        invariant |addr| <= n && Valid() && addr + Contents() == old(Contents())
        invariant nwrite == nread <==> Count(nread, nwrite) == 0
      {
        CountAfterTake(nread, nwrite);
        TakeRemoves(data[..], nread, nwrite);
        ghost var rest := Contents();
        addr := addr + [data[Index(nread)]];
        nread := Next(nread);
        assert rest == [rest[0]] + Contents();
        FullTest(nread, nwrite);
      }
    }
  }
}
