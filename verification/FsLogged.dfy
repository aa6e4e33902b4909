/** Which sectors one writei hands to log_write: exactly the data blocks it
    covers, the map blocks of the blocks it allocates, the indirect block if it
    adds an entry to it, and the inode if the file grows. */
module FsLogged {
  import opened Blocks
  import opened FsState
  import opened FsWrite

  /** Blocks outside the set are as they were. */
  ghost predicate OnlyLogged(blocks: seq<Block>, blocks': seq<Block>, logged: set<nat>) {
    |blocks'| == |blocks| && forall c :: 0 <= c < |blocks| && c !in logged ==> blocks'[c] == blocks[c]
  }

  /** A buffer as log_write found it. */
  datatype Write = Write(sector: nat, data: Block)

  /** The disk after the buffers were written to it in that order. */
  function Applied(blocks: seq<Block>, ws: seq<Write>): (r: seq<Block>)
    ensures |r| == |blocks|
  {
    if ws == [] then blocks
    else
      var w, b := ws[|ws| - 1], Applied(blocks, ws[..|ws| - 1]);
      if w.sector < |b| then b[w.sector := w.data] else b
  }

  function Sectors(ws: seq<Write>): set<nat> {
    set i | 0 <= i < |ws| :: ws[i].sector
  }

  /** The buffers after the first |ws| make blocks into blocks'. */
  ghost predicate Recorded(blocks: seq<Block>, ws: seq<Write>, blocks': seq<Block>, ws': seq<Write>) {
    ws <= ws' && blocks' == Applied(blocks, ws'[|ws|..])
  }

  lemma NoSectors()
    ensures Sectors([]) == {}
  {
  }

  lemma NothingApplied(blocks: seq<Block>)
    ensures Applied(blocks, []) == blocks
  {
  }

  lemma SectorsGrow(ws: seq<Write>, w: Write)
    ensures Sectors(ws + [w]) == Sectors(ws) + {w.sector}
  {
    forall c ensures c in Sectors(ws + [w]) <==> c in Sectors(ws) + {w.sector} {
      if c in Sectors(ws) {
        var i :| 0 <= i < |ws| && ws[i].sector == c;
        assert (ws + [w])[i].sector == c;
      }
      if c == w.sector { assert (ws + [w])[|ws|].sector == c; }
    }
  }

  lemma {:induction false} AppliedTwice(blocks: seq<Block>, ws: seq<Write>, ws': seq<Write>)
    ensures Applied(blocks, ws + ws') == Applied(Applied(blocks, ws), ws')
    decreases |ws'|
  {
    if ws' == [] {
      assert ws + ws' == ws;
    } else {
      var init := ws'[..|ws'| - 1];
      assert (ws + ws')[..|ws + ws'| - 1] == ws + init;
      AppliedTwice(blocks, ws, init);
    }
  }

  lemma RecordedNone(blocks: seq<Block>, ws: seq<Write>)
    ensures Recorded(blocks, ws, blocks, ws)
  {
  }

  lemma RecordedOne(blocks: seq<Block>, ws: seq<Write>, w: Write)
    requires w.sector < |blocks|
    ensures Recorded(blocks, ws, blocks[w.sector := w.data], ws + [w])
  {
    assert (ws + [w])[|ws|..] == [] + [w];
  }

  lemma RecordedTwice(a: seq<Block>, wa: seq<Write>, b: seq<Block>, wb: seq<Write>, c: seq<Block>, wc: seq<Write>)
    requires Recorded(a, wa, b, wb) && Recorded(b, wb, c, wc)
    ensures Recorded(a, wa, c, wc)
  {
    assert wc[|wa|..] == wb[|wa|..] + wc[|wb|..];
    AppliedTwice(a, wb[|wa|..], wc[|wb|..]);
  }

  /** Only sectors among the recorded buffers change. */
  lemma {:induction false} RecordedOnly(blocks: seq<Block>, ws: seq<Write>, blocks': seq<Block>, ws': seq<Write>)
    requires Recorded(blocks, ws, blocks', ws')
    ensures OnlyLogged(blocks, blocks', Sectors(ws'))
  {
    AppliedOnly(blocks, ws'[|ws|..]);
    forall c | c in Sectors(ws'[|ws|..]) ensures c in Sectors(ws') {
      var i :| 0 <= i < |ws'[|ws|..]| && ws'[|ws|..][i].sector == c;
      assert ws'[|ws| + i].sector == c;
    }
  }

  lemma {:induction false} AppliedOnly(blocks: seq<Block>, ws: seq<Write>)
    ensures OnlyLogged(blocks, Applied(blocks, ws), Sectors(ws))
  {
    if ws != [] {
      var init, w := ws[..|ws| - 1], ws[|ws| - 1];
      AppliedOnly(blocks, init);
      SectorsGrow(init, w);
      assert init + [w] == ws;
    }
  }

  /** The index in the file of the block a data slot holds. */
  function IndexOf(s: Slot): nat {
    if s.pos < NDIRECT then s.pos else if s.pos == NDIRECT then MAXFILE else s.pos - 1
  }

  lemma IndexOfData(inum: nat, n: nat)
    requires n < MAXFILE
    ensures IndexOf(DataSlot(inum, n)) == n
    ensures forall s: Slot :: s.inum == inum && s.pos < 141 && IndexOf(s) == n ==> s == DataSlot(inum, n)
  {
  }

  /** Block c holds one of the blocks lo .. hi - 1 of the file. */
  predicate Covers(owner: map<nat, Slot>, inum: nat, lo: nat, hi: nat, c: nat) {
    c in owner && owner[c].inum == inum && owner[c].pos != NDIRECT && lo <= IndexOf(owner[c]) < hi
  }

  predicate NewBlock(owner0: map<nat, Slot>, owner: map<nat, Slot>, x: nat) {
    x in owner && x !in owner0
  }

  /** A map block in which the bit of a new block was set. */
  ghost predicate InMap(sb: Super, owner0: map<nat, Slot>, owner: map<nat, Slot>, c: nat) {
    exists x :: NewBlock(owner0, owner, x) && BBlock(sb, x) == c
  }

  predicate NewFar(owner0: map<nat, Slot>, owner: map<nat, Slot>, x: nat) {
    NewBlock(owner0, owner, x) && owner[x].pos >= NDIRECT
  }

  /** The indirect block, if it or an entry of it is new. */
  ghost predicate InIndirect(owner0: map<nat, Slot>, owner: map<nat, Slot>, inum: nat, c: nat) {
    c in owner && owner[c] == Slot(inum, NDIRECT) && exists x :: NewFar(owner0, owner, x)
  }

  ghost predicate Keeps(owner0: map<nat, Slot>, owner: map<nat, Slot>) {
    forall x :: x in owner0 ==> x in owner && owner[x] == owner0[x]
  }

  /** What bmap logs: the blocks it allocates, their map blocks and the indirect
      block.  They go to block bn and the indirect block of the file. */
  ghost predicate BmapLogs(sb: Super, logged0: set<nat>, logged: set<nat>, owner0: map<nat, Slot>, owner: map<nat, Slot>,
                           inum: nat, bn: nat)
    requires bn < MAXFILE
  {
    && Keeps(owner0, owner)
    && (forall x :: NewBlock(owner0, owner, x) ==> owner[x] == DataSlot(inum, bn) || owner[x] == Slot(inum, NDIRECT))
    && (forall c :: c in logged <==>
          c in logged0 || NewBlock(owner0, owner, c) || InMap(sb, owner0, owner, c) || InIndirect(owner0, owner, inum, c))
  }

  /** What writei has logged when it has covered the blocks lo .. hi - 1. */
  ghost predicate WriteLogs(sb: Super, logged0: set<nat>, logged: set<nat>, owner0: map<nat, Slot>, owner: map<nat, Slot>,
                            inum: nat, lo: nat, hi: nat)
  {
    && Keeps(owner0, owner)
    && (forall x :: NewBlock(owner0, owner, x) ==> owner[x].inum == inum)
    && (forall c :: c in logged <==>
          c in logged0 || Covers(owner, inum, lo, hi, c) || InMap(sb, owner0, owner, c) || InIndirect(owner0, owner, inum, c))
  }

  lemma BmapLogsNothing(sb: Super, logged: set<nat>, owner: map<nat, Slot>, inum: nat, bn: nat)
    requires bn < MAXFILE
    ensures BmapLogs(sb, logged, logged, owner, owner, inum, bn)
  {
    forall c ensures !InMap(sb, owner, owner, c) && !InIndirect(owner, owner, inum, c) { }
  }

  /** balloc into a slot of the file, with the indirect block logged too if the
      slot is an entry of it. */
  lemma AllocLogs(sb: Super, logged: set<nat>, owner: map<nat, Slot>, b: nat, inum: nat, bn: nat, pos: nat, ind: nat)
    requires bn < MAXFILE && b !in owner && (pos == DataSlot(inum, bn).pos || pos == NDIRECT)
    requires forall x, y :: x in owner && y in owner && owner[x] == owner[y] ==> x == y
    requires pos == NDIRECT ==> ind == b && forall x :: x in owner ==> owner[x] != Slot(inum, NDIRECT)
    requires pos > NDIRECT ==> ind in owner && owner[ind] == Slot(inum, NDIRECT)
    ensures BmapLogs(sb, logged, logged + {BBlock(sb, b), b} + (if pos >= NDIRECT then {ind} else {}),
                     owner, owner[b := Slot(inum, pos)], inum, bn)
  {
    var owner' := owner[b := Slot(inum, pos)];
    assert NewBlock(owner, owner', b);
    forall c ensures InMap(sb, owner, owner', c) <==> c == BBlock(sb, b) { }
    forall c ensures InIndirect(owner, owner', inum, c) <==> pos >= NDIRECT && c == ind {
      assert pos >= NDIRECT ==> NewFar(owner, owner', b);
    }
  }

  /** Two allocations for one block: the indirect block, then the entry. */
  lemma BmapLogsTwice(sb: Super, logged0: set<nat>, logged1: set<nat>, logged2: set<nat>,
                      owner0: map<nat, Slot>, owner1: map<nat, Slot>, owner2: map<nat, Slot>, inum: nat, bn: nat)
    requires bn < MAXFILE && BmapLogs(sb, logged0, logged1, owner0, owner1, inum, bn)
    requires BmapLogs(sb, logged1, logged2, owner1, owner2, inum, bn)
    ensures BmapLogs(sb, logged0, logged2, owner0, owner2, inum, bn)
  {
    forall x ensures NewBlock(owner0, owner2, x) <==> NewBlock(owner0, owner1, x) || NewBlock(owner1, owner2, x) { }
    forall x ensures NewFar(owner0, owner2, x) <==> NewFar(owner0, owner1, x) || NewFar(owner1, owner2, x) { }
    forall c ensures InMap(sb, owner0, owner2, c) <==> InMap(sb, owner0, owner1, c) || InMap(sb, owner1, owner2, c) {
      MapTwice(sb, owner0, owner1, owner2, c);
    }
    forall c ensures c in logged2 <==>
        c in logged0 || NewBlock(owner0, owner2, c) || InMap(sb, owner0, owner2, c) || InIndirect(owner0, owner2, inum, c)
    {
      IndirectTwice(owner0, owner1, owner2, inum, c);
    }
  }

  lemma MapTwice(sb: Super, owner0: map<nat, Slot>, owner1: map<nat, Slot>, owner2: map<nat, Slot>, c: nat)
    requires Keeps(owner0, owner1) && Keeps(owner1, owner2)
    ensures InMap(sb, owner0, owner2, c) <==> InMap(sb, owner0, owner1, c) || InMap(sb, owner1, owner2, c)
  {
    if x :| NewBlock(owner0, owner1, x) && BBlock(sb, x) == c { assert NewBlock(owner0, owner2, x); }
    if x :| NewBlock(owner1, owner2, x) && BBlock(sb, x) == c { assert NewBlock(owner0, owner2, x); }
    if x :| NewBlock(owner0, owner2, x) && BBlock(sb, x) == c {
      assert NewBlock(owner0, owner1, x) || NewBlock(owner1, owner2, x);
    }
  }

  /** The indirect block counts as logged once any later entry is new; a new
      indirect block counts itself. */
  lemma IndirectTwice(owner0: map<nat, Slot>, owner1: map<nat, Slot>, owner2: map<nat, Slot>, inum: nat, c: nat)
    requires Keeps(owner0, owner1) && Keeps(owner1, owner2)
    ensures InIndirect(owner0, owner1, inum, c) || InIndirect(owner1, owner2, inum, c) ==> InIndirect(owner0, owner2, inum, c)
    ensures InIndirect(owner0, owner2, inum, c) ==>
              InIndirect(owner0, owner1, inum, c) || InIndirect(owner1, owner2, inum, c) || NewBlock(owner1, owner2, c)
  {
    if x :| NewFar(owner0, owner1, x) { assert NewFar(owner0, owner2, x); }
    if x :| NewFar(owner1, owner2, x) { assert NewFar(owner0, owner2, x); }
    if x :| NewFar(owner0, owner2, x) { assert NewFar(owner0, owner1, x) || NewFar(owner1, owner2, x); }
  }

  /** One round of writei. */
  lemma RoundLogs(sb: Super, fs: Fs, reserved: set<nat>, logged0: set<nat>, logged1: set<nat>, logged2: set<nat>,
                  owner0: map<nat, Slot>, owner1: map<nat, Slot>, owner2: map<nat, Slot>, inum: nat, lo: nat, hi: nat, bn: nat, b: nat)
    requires bn < MAXFILE && Owned(sb, fs, reserved, owner2, {}, {})
    requires WriteLogs(sb, logged0, logged1, owner0, owner1, inum, lo, hi) && BmapLogs(sb, logged1, logged2, owner1, owner2, inum, bn)
    requires b in owner2 && owner2[b] == DataSlot(inum, bn) && lo <= bn && (hi == bn || hi == bn + 1 || hi <= lo == bn)
    ensures WriteLogs(sb, logged0, logged2 + {b}, owner0, owner2, inum, lo, bn + 1)
  {
    hide Owned;
    forall c ensures c in logged2 + {b} <==>
        c in logged0 || Covers(owner2, inum, lo, bn + 1, c) || InMap(sb, owner0, owner2, c) || InIndirect(owner0, owner2, inum, c)
    {
      MapTwice(sb, owner0, owner1, owner2, c);
      IndirectTwice(owner0, owner1, owner2, inum, c);
      CoversNext(sb, fs, reserved, owner1, owner2, inum, lo, hi, bn, b, c);
      if NewBlock(owner1, owner2, c) && owner2[c] == Slot(inum, NDIRECT) { assert NewFar(owner1, owner2, c); }
    }
  }

  lemma CoversNext(sb: Super, fs: Fs, reserved: set<nat>, owner1: map<nat, Slot>, owner2: map<nat, Slot>,
                   inum: nat, lo: nat, hi: nat, bn: nat, b: nat, c: nat)
    requires bn < MAXFILE && Owned(sb, fs, reserved, owner2, {}, {}) && Keeps(owner1, owner2)
    requires forall x :: NewBlock(owner1, owner2, x) ==> owner2[x] == DataSlot(inum, bn) || owner2[x] == Slot(inum, NDIRECT)
    requires b in owner2 && owner2[b] == DataSlot(inum, bn) && lo <= bn && (hi == bn || hi == bn + 1 || hi <= lo == bn)
    ensures Covers(owner2, inum, lo, bn + 1, c) <==> Covers(owner1, inum, lo, hi, c) || c == b
  {
    hide Ref, BitOk, SlotOk;
    IndexOfData(inum, bn);
    if c in owner2 { assert OwnerOk(sb, fs, reserved, owner2, {}, {}, c); }
    assert OwnerOk(sb, fs, reserved, owner2, {}, {}, b);
  }

  lemma OwnerFacts(sb: Super, fs: Fs, reserved: set<nat>, owner: map<nat, Slot>, inum: nat)
    requires Owned(sb, fs, reserved, owner, {}, {}) && inum < sb.ninodes
    ensures forall x, y :: x in owner && y in owner && owner[x] == owner[y] ==> x == y
    ensures fs.inodes[inum].addrs[NDIRECT] == 0 ==> forall x :: x in owner ==> owner[x] != Slot(inum, NDIRECT)
  {
    hide Ref, BitOk, SlotOk;
    forall x, y | x in owner && y in owner && owner[x] == owner[y] ensures x == y {
      assert OwnerOk(sb, fs, reserved, owner, {}, {}, x) && OwnerOk(sb, fs, reserved, owner, {}, {}, y);
    }
    if fs.inodes[inum].addrs[NDIRECT] == 0 {
      forall x | x in owner ensures owner[x] != Slot(inum, NDIRECT) { NoIndirect(sb, fs, reserved, owner, inum, x); }
    }
  }

  lemma NoIndirect(sb: Super, fs: Fs, reserved: set<nat>, owner: map<nat, Slot>, inum: nat, x: nat)
    requires Owned(sb, fs, reserved, owner, {}, {}) && inum < sb.ninodes && fs.inodes[inum].addrs[NDIRECT] == 0 && x in owner
    ensures owner[x] != Slot(inum, NDIRECT)
  {
    assert OwnerOk(sb, fs, reserved, owner, {}, {}, x);
  }

  /** One past the last block that n bytes at off touch. */
  function TopBlock(off: nat, n: nat): nat {
    if n == 0 then off / BSIZE else BlocksFor(off + n)
  }

  /** What writei as a whole logs. */
  ghost predicate WriteiLogs(sb: Super, logged0: set<nat>, logged: set<nat>, owner0: map<nat, Slot>, owner: map<nat, Slot>,
                             inum: nat, off: nat, n: nat, grew: bool)
  {
    && Keeps(owner0, owner)
    && (forall x :: NewBlock(owner0, owner, x) ==> owner[x].inum == inum)
    && (forall c :: c in logged <==>
          c in logged0 || Covers(owner, inum, off / BSIZE, TopBlock(off, n), c) || InMap(sb, owner0, owner, c)
          || InIndirect(owner0, owner, inum, c) || (grew && c == IBlock(inum)))
  }

  lemma WriteLogsNothing(sb: Super, logged: set<nat>, owner: map<nat, Slot>, inum: nat, lo: nat)
    ensures WriteLogs(sb, logged, logged, owner, owner, inum, lo, lo)
  {
    forall c ensures !InMap(sb, owner, owner, c) && !InIndirect(owner, owner, inum, c) { }
  }

  /** The rounds of writei cover its blocks one after the other. */
  lemma RoundBlocks(off: nat, tot: nat, m: nat)
    requires m >= 1 && (off + tot) % BSIZE + m <= BSIZE
    ensures var bn := (off + tot) / BSIZE;
            && off / BSIZE <= bn && TopBlock(off, tot + m) == bn + 1
            && (TopBlock(off, tot) == bn || TopBlock(off, tot) == bn + 1)
  {
    var q, o := (off + tot) / BSIZE, (off + tot) % BSIZE;
    assert off + tot == BSIZE * q + o;
    assert BlocksFor(off + tot + m) == q + 1 by {
      assert off + tot + m + BSIZE - 1 == BSIZE * (q + 1) + (o + m - 1);
    }
    assert BlocksFor(off + tot) == q || BlocksFor(off + tot) == q + 1 by {
      if o == 0 {
        assert off + tot + BSIZE - 1 == BSIZE * q + (BSIZE - 1);
      } else {
        assert off + tot + BSIZE - 1 == BSIZE * (q + 1) + (o - 1);
      }
    }
  }

  lemma WriteiLogged(sb: Super, logged0: set<nat>, logged: set<nat>, owner0: map<nat, Slot>, owner: map<nat, Slot>,
                     before: set<nat>, inum: nat, off: nat, n: nat, grew: bool)
    requires WriteLogs(sb, logged0, before, owner0, owner, inum, off / BSIZE, TopBlock(off, n))
    requires logged == before + (if grew then {IBlock(inum)} else {})
    ensures WriteiLogs(sb, logged0, logged, owner0, owner, inum, off, n, grew)
  {
  }
}
