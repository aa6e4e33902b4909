/** A change to the files as one transaction of the log: what writei and itrunc
    hand to log_write between begin_op and end_op reaches the files all together
    or not at all, wherever the machine stops. */
module Transactions {
  import opened Types
  import opened Blocks
  import opened CrashFiles
  import opened FsCount
  import opened FsFormat
  import opened FsLogged
  import opened FsState
  import opened FsWrite
  import opened LogMachine
  import opened FsTrunc
  import FS = Inodes
  import FW = FileWrite
  import L = Logging

  // ----- blocks

  /** No operation in progress and no buffer held. */
  ghost predicate AtRest(log: L.Log)
    reads log
  {
    log.Valid() && log.pc.Running? && log.ops == map[] && log.held == map[]
  }

  /** So many sectors, logged by one operation alone, pass log_write's test of the
      size even when one of them is logged again. */
  predicate Fits(l: Layout, count: nat) {
    count < LOGSIZE && count + 1 < l.size
  }

  /** The buffers are of sectors outside the log. */
  ghost predicate Homes(l: Layout, sectors: nat, ws: seq<Write>) {
    forall c :: c in Sectors(ws) ==> c < sectors && c < WORD_LIMIT && !l.InLog(c)
  }

  lemma SectorsPart(ws: seq<Write>, i: nat)
    requires i < |ws|
    ensures ws[i].sector in Sectors(ws) && Sectors(ws[..i + 1]) == Sectors(ws[..i]) + {ws[i].sector}
    ensures |Sectors(ws[..i + 1])| <= |Sectors(ws)|
  {
    assert ws[..i + 1] == ws[..i] + [ws[i]];
    SectorsGrow(ws[..i], ws[i]);
    forall c | c in Sectors(ws[..i + 1]) ensures c in Sectors(ws) {
      var j :| 0 <= j < |ws[..i + 1]| && ws[..i + 1][j].sector == c;
      assert ws[j].sector == c;
    }
    Subset(Sectors(ws[..i + 1]), Sectors(ws));
  }

  lemma Subset(a: set<nat>, b: set<nat>)
    requires a <= b
    ensures |a| <= |b|
  {
    assert b == a + (b - a);
  }

  lemma AppliedNext(blocks: seq<Block>, ws: seq<Write>, i: nat)
    requires i < |ws| && ws[i].sector < |blocks|
    ensures Applied(blocks, ws[..i + 1]) == Applied(blocks, ws[..i])[ws[i].sector := ws[i].data]
  {
    assert ws[..i + 1][..i] == ws[..i];
  }

  /** The only operation in progress has logged the sectors in `done`. */
  ghost predicate Entered(s: State, op: OpId, done: set<nat>) {
    && s.pc.Running? && s.held == map[] && s.ops == map[op := |done|] && |s.lh| == |done|
    && forall c: Word :: c in s.lh <==> c in done
  }

  ghost predicate Pushed(log: L.Log, op: OpId, done: set<nat>)
    reads log
  {
    log.Valid() && Entered(log.Abs(), op, done)
  }

  /** An operation alone in the log does not meet log_write's panic. */
  lemma CanEnter(l: Layout, s: State, op: OpId, done: set<nat>, k: Word)
    requires Entered(s, op, done) && Fits(l, |done + {k}|)
    ensures SizeGuardPasses(l, s) && op in s.ops && s.held == map[] && (k !in s.lh ==> MayLog(s, op))
  {
    assert k in done ==> done + {k} == done;
    var none: map<OpId, nat> := map[];
    UnusedUpdate(none, op, |done|);
    assert none - {op} == none && none[op := |done|] == s.ops;
  }

  lemma EnteredNext(s: State, s': State, op: OpId, done: set<nat>, k: Word)
    requires Entered(s, op, done) && s'.pc == s.pc && s'.held == s.held
    requires s'.lh == if k in s.lh then s.lh else s.lh + [k]
    requires op in s.ops && s'.ops == if k in s.lh then s.ops else s.ops[op := s.ops[op] + 1]
    ensures Entered(s', op, done + {k})
  {
    assert k in done ==> done + {k} == done;
  }

  /** One buffer. */
  method PushOne(log: L.Log, w: Write, ghost op: OpId, ghost done: set<nat>)
    requires Pushed(log, op, done) && w.sector < |log.disk| && w.sector < WORD_LIMIT && !log.layout.InLog(w.sector)
    requires Fits(log.layout, |done + {w.sector}|)
    modifies log`n, log`sector, log`cache, log`held, log`ops, log`run, log`steps
    ensures Pushed(log, op, done + {w.sector}) && View(log.Abs()) == old(View(log.Abs()))[w.sector := w.data]
    ensures log.Extends(old(log.run), old(log.steps)) && NoCommit(log.steps, |old(log.steps)|)
  {
    hide Inv, View, Entered, SizeGuardPasses, NoCommit, log.RunOk, log.Extends;
    CanEnter(log.layout, log.Abs(), op, done, w.sector);
    var ok := log.Store(w.sector, w.data, op);
    EnteredNext(old(log.Abs()), log.Abs(), op, done, w.sector);
  }

  /** The buffers go through the log in the order of the log_writes. */
  method Push(log: L.Log, ws: seq<Write>, ghost op: OpId)
    requires Pushed(log, op, {}) && Homes(log.layout, |log.disk|, ws)
    requires Fits(log.layout, |Sectors(ws)|)
    modifies log`n, log`sector, log`cache, log`held, log`ops, log`run, log`steps
    ensures Pushed(log, op, Sectors(ws)) && View(log.Abs()) == Applied(old(View(log.Abs())), ws)
    ensures log.Extends(old(log.run), old(log.steps)) && NoCommit(log.steps, |old(log.steps)|)
  {
    hide Inv, View, Sectors, Applied, Pushed;
    PushedValid(log, op, {});
    ghost var view := View(log.Abs());
    NoSectors();
    NothingApplied(view);
    var i := 0;
    assert ws[..0] == [];
    while i < |ws|
      invariant i <= |ws| && Pushed(log, op, Sectors(ws[..i])) && log.Valid() && View(log.Abs()) == Applied(view, ws[..i])
      invariant log.Extends(old(log.run), old(log.steps)) && NoCommit(log.steps, |old(log.steps)|)
    {
      SectorsPart(ws, i);
      AppliedNext(view, ws, i);
      PushOne(log, ws[i], op, Sectors(ws[..i]));
      i := i + 1;
      PushedValid(log, op, Sectors(ws[..i]));
    }
    assert ws[..|ws|] == ws;
  }

  lemma PushedValid(log: L.Log, op: OpId, done: set<nat>)
    requires Pushed(log, op, done)
    ensures log.Valid()
  {
  }

  lemma HomeTransitive(l: Layout, a: seq<Block>, b: seq<Block>, c: seq<Block>)
    requires SameHome(l, a, b) && SameHome(l, b, c)
    ensures SameHome(l, a, c)
  {
  }

  /** The disk d recovers to what the disk `before` would, or to `after`. */
  ghost predicate AllOrNone(l: Layout, d: seq<Block>, before: seq<Block>, after: seq<Block>) {
    && GoodDisk(l, d) && GoodDisk(l, before)
    && (SameHome(l, Recovered(l, d), Recovered(l, before)) || SameHome(l, Recovered(l, d), after))
  }

  lemma BeforeEnd(l: Layout, run: seq<State>, steps: seq<Step>, a: nat, i: nat, after: seq<Block>)
    requires |run| == |steps| + 1 && IsRun(l, run, steps) && Inv(l, run[0]) && a <= i < |run| && NoCommit(steps, a)
    ensures AllOrNone(l, run[i].disk, run[a].disk, after)
  {
    hide Recovered, IsRun, Inv, GoodDisk, SameHome;
    SegmentKeepsRecovered(l, run, steps, a, i);
    IdleFacts(l, run[i]);
    IdleFacts(l, run[a]);
  }

  /** The rest of the operation: the buffers, then end_op.  From begin_op to the
      end, every state recovers to the blocks before or to all the changes. */
  method Finish(log: L.Log, ws: seq<Write>, ghost op: OpId)
    requires Pushed(log, op, {}) && Homes(log.layout, |log.disk|, ws)
    requires Fits(log.layout, |Sectors(ws)|)
    modifies log`n, log`sector, log`outstanding, log`committing, log`disk, log`cache, log`held, log`ops, log`pc, log`run, log`steps
    ensures AtRest(log) && log.Extends(old(log.run), old(log.steps))
    ensures SameHome(log.layout, View(log.Abs()), Applied(old(View(log.Abs())), ws))
    ensures SameHome(log.layout, log.disk, Applied(old(View(log.Abs())), ws))
    ensures forall i :: |old(log.run)| - 1 <= i < |log.run| ==>
              AllOrNone(log.layout, log.run[i].disk, old(log.disk), Applied(old(View(log.Abs())), ws))
  {
    hide Inv, View, Sectors, Applied, Recovered, GoodDisk, SameHome, log.RunOk, NoCommit, AllOrNone;
    assert log.Valid();
    Push(log, ws, op);
    ghost var pushed, a, after := log.run, |old(log.run)| - 1, Applied(old(View(log.Abs())), ws);
    forall i | a <= i < |pushed| ensures AllOrNone(log.layout, pushed[i].disk, old(log.disk), after) {
      log.ValidRun();
      BeforeEnd(log.layout, log.run, log.steps, a, i, after);
    }
    log.EndOp(op);
    forall i | a <= i < |log.run| ensures AllOrNone(log.layout, log.run[i].disk, old(log.disk), after) {
      if i < |pushed| { assert log.run[i] == pushed[i]; } else { EndedAllOrNone(log.layout, log.run[i].disk, old(log.disk), after); }
    }
  }

  lemma EndedAllOrNone(l: Layout, d: seq<Block>, before: seq<Block>, after: seq<Block>)
    requires GoodDisk(l, d) && GoodDisk(l, before)
    requires SameHome(l, Recovered(l, d), Recovered(l, before)) || SameHome(l, Recovered(l, d), after)
    ensures AllOrNone(l, d, before, after)
  {
  }

  // ----- files

  /** The disk is a proper file system and holds exactly the files of fs. */
  ghost predicate FilesOf(sb: Super, reserved: set<nat>, blocks: seq<Block>, fs: Fs, owner: map<nat, Slot>) {
    && FsOk(sb, fs, reserved, owner) && HoldsFiles(sb, reserved, blocks, owner) && InodesOf(sb, blocks) == fs.inodes
    && forall i :: 0 <= i < sb.ninodes ==> SameFile(sb, fs, Fs(blocks, InodesOf(sb, blocks)), i)
  }

  ghost predicate SameFile(sb: Super, fs: Fs, fs': Fs, i: nat) {
    && i < sb.ninodes && Shaped(sb, fs) && Shaped(sb, fs') && FileOk(sb, fs, i) && FileOk(sb, fs', i)
    && Content(sb, fs', i) == Content(sb, fs, i)
  }

  lemma FilesOnDisk(l: Layout, sb: Super, reserved: set<nat>, owner: map<nat, Slot>, fs: Fs, blocks: seq<Block>)
    requires LogApart(l, sb, reserved) && FsOk(sb, fs, reserved, owner) && SameHome(l, blocks, fs.blocks)
    ensures FilesOf(sb, reserved, blocks, fs, owner)
  {
    hide Owned, Dense, Content, DinodeAt, LogApart, SameHome;
    OwnedShaped(sb, fs, reserved, owner);
    forall i | 0 <= i < sb.ninodes ensures IBlock(i) < |fs.blocks| && DinodeAt(fs.blocks[IBlock(i)], i % IPB) == fs.inodes[i] {
      assert FileOk(sb, fs, i);
    }
    assert InodesOf(sb, fs.blocks) == fs.inodes;
    assert Fs(fs.blocks, fs.inodes) == fs;
    SameHomeSameFiles(l, sb, reserved, owner, fs.blocks, blocks);
    OwnedShaped(sb, Fs(blocks, InodesOf(sb, blocks)), reserved, owner);
  }

  /** The raw bytes of such a disk, read as fs.h lays them out, are the files. */
  lemma FilesAreBytes(sb: Super, reserved: set<nat>, blocks: seq<Block>, fs: Fs, owner: map<nat, Slot>, i: nat)
    requires FilesOf(sb, reserved, blocks, fs, owner) && i < sb.ninodes
    ensures Shaped(sb, fs) && FileOk(sb, fs, i) && 1024 + 64 * i + 64 <= 512 * |blocks|
    ensures |Content(sb, fs, i)| == U32(blocks, 1024 + 64 * i + 8) <= 140 * 512
    ensures forall k :: 0 <= k < |Content(sb, fs, i)| ==> Content(sb, fs, i)[k] == ByteOnDisk(blocks, i, k)
  {
    hide FsOk, FileOk, Content, U32, ByteOnDisk;
    assert SameFile(sb, fs, Fs(blocks, InodesOf(sb, blocks)), i);
    ContentOnDisk(sb, Fs(blocks, InodesOf(sb, blocks)), i);
  }

  /** The log on disk: its first block is a count and that many sector numbers, as words. */
  lemma HeaderPlace(l: Layout, d: seq<Block>)
    requires GoodDisk(l, d)
    ensures 512 * l.start + 512 <= 512 * |d| && |HeaderOf(d[l.start])| <= 30
    ensures var n := U32(d, 512 * l.start);
            && |HeaderOf(d[l.start])| == (if n < 0x8000_0000 then n else 0)
            && forall i :: 0 <= i < |HeaderOf(d[l.start])| ==> HeaderOf(d[l.start])[i] == U32(d, 512 * l.start + 4 + 4 * i)
  {
    hide U32, WordAt;
    WordPlace(d, l.start, 0);
    forall i | 0 <= i < |HeaderOf(d[l.start])| ensures HeaderOf(d[l.start])[i] == U32(d, 512 * l.start + 4 + 4 * i) {
      WordPlace(d, l.start, i + 1);
      assert 512 * l.start + 4 * (i + 1) == 512 * l.start + 4 + 4 * i;
    }
  }

  /** A change that logs neither of them leaves the boot and the super block alone. */
  lemma SuperKept(blocks: seq<Block>, blocks': seq<Block>, ws: seq<Write>)
    requires Recorded(blocks, [], blocks', ws) && |blocks| >= 2 && forall c :: c in Sectors(ws) ==> c >= 2
    ensures |blocks'| == |blocks| && blocks'[..2] == blocks[..2]
  {
    hide Recorded, Sectors;
    RecordedOnly(blocks, [], blocks', ws);
  }

  lemma AtLeastTwo(sb: Super, fs: Fs, reserved: set<nat>, inum: nat)
    requires LayoutOk(sb, reserved) && Shaped(sb, fs) && inum < sb.ninodes
    ensures |fs.blocks| >= 2
  {
    assert IBlock(inum) < sb.size;
  }

  lemma {:induction false} AppliedHome(l: Layout, a: seq<Block>, b: seq<Block>, ws: seq<Write>)
    requires SameHome(l, a, b)
    ensures SameHome(l, Applied(a, ws), Applied(b, ws))
  {
    if ws != [] { AppliedHome(l, a, b, ws[..|ws| - 1]); }
  }

  /** What writei logs lies outside the log. */
  lemma WriteHomes(l: Layout, sb: Super, fs: Fs, reserved: set<nat>, owner0: map<nat, Slot>, owner: map<nat, Slot>, ws: seq<Write>,
                   inum: nat, off: nat, n: nat, grew: bool)
    requires LogApart(l, sb, reserved) && Owned(sb, fs, reserved, owner, {}, {}) && inum < sb.ninodes
    requires WriteiLogs(sb, {}, Sectors(ws), owner0, owner, inum, off, n, grew)
    ensures Homes(l, |fs.blocks|, ws)
  {
    hide Ref, Sectors;
    forall c | c in Sectors(ws) ensures c < |fs.blocks| && c < WORD_LIMIT && !l.InLog(c) {
      if c in owner {
        assert OwnerOk(sb, fs, reserved, owner, {}, {}, c);
      } else if InMap(sb, owner0, owner, c) {
        var x :| NewBlock(owner0, owner, x) && BBlock(sb, x) == c;
        assert OwnerOk(sb, fs, reserved, owner, {}, {}, x);
      }
    }
  }

  /** The disk d recovers to the files of fs. */
  ghost predicate FilesAt(l: Layout, d: seq<Block>, sb: Super, reserved: set<nat>, fs: Fs, owner: map<nat, Slot>) {
    GoodDisk(l, d) && FilesOf(sb, reserved, Recovered(l, d), fs, owner)
  }

  /** A state that recovers to the blocks before or after recovers to the files
      before or after. */
  lemma FilesBeforeOrAfter(l: Layout, sb: Super, reserved: set<nat>, d: seq<Block>, before: seq<Block>, after: seq<Block>,
                           fs0: Fs, owner0: map<nat, Slot>, fs: Fs, owner: map<nat, Slot>)
    requires LogApart(l, sb, reserved) && AllOrNone(l, d, before, after)
    requires FsOk(sb, fs0, reserved, owner0) && SameHome(l, Recovered(l, before), fs0.blocks)
    requires FsOk(sb, fs, reserved, owner) && SameHome(l, after, fs.blocks)
    ensures FilesAt(l, d, sb, reserved, fs0, owner0) || FilesAt(l, d, sb, reserved, fs, owner)
  {
    hide FsOk, FilesOf, LogApart, SameHome, Recovered, GoodDisk;
    if SameHome(l, Recovered(l, d), after) {
      HomeTransitive(l, Recovered(l, d), after, fs.blocks);
      FilesOnDisk(l, sb, reserved, owner, fs, Recovered(l, d));
    } else {
      HomeTransitive(l, Recovered(l, d), Recovered(l, before), fs0.blocks);
      FilesOnDisk(l, sb, reserved, owner0, fs0, Recovered(l, d));
    }
  }

  /** begin_op with nothing else in progress. */
  method Begin(log: L.Log, ghost op: OpId)
    requires AtRest(log)
    modifies log`outstanding, log`ops, log`run, log`steps
    ensures Pushed(log, op, {}) && log.Extends(old(log.run), old(log.steps)) && |log.run| == |old(log.run)| + 1
    ensures GoodDisk(log.layout, log.disk) && SameHome(log.layout, Recovered(log.layout, log.disk), View(log.Abs()))
    ensures View(log.Abs()) == old(View(log.Abs()))
  {
    hide Inv, Recovered, SameHome, GoodDisk, log.RunOk;
    log.ValidInv();
    IdleFacts(log.layout, log.Abs());
    SettledIsDurable(log.layout, log.Abs());
    var admitted := log.BeginOp(op);
    assert View(log.Abs()) == old(View(log.Abs()));
  }

  /** end_op of an operation that has made fs0 into fs by the log_writes ws. */
  method EndCall(log: L.Log, ws: seq<Write>, ghost op: OpId, ghost sb: Super, ghost reserved: set<nat>,
                 ghost fs0: Fs, ghost owner0: map<nat, Slot>, ghost fs: Fs, ghost owner: map<nat, Slot>)
    requires Pushed(log, op, {}) && Homes(log.layout, |log.disk|, ws)
    requires Fits(log.layout, |Sectors(ws)|)
    requires LogApart(log.layout, sb, reserved) && FsOk(sb, fs0, reserved, owner0) && FsOk(sb, fs, reserved, owner)
    requires fs.blocks == Applied(fs0.blocks, ws) && SameHome(log.layout, View(log.Abs()), fs0.blocks)
    requires GoodDisk(log.layout, log.disk) && SameHome(log.layout, Recovered(log.layout, log.disk), View(log.Abs()))
    modifies log`n, log`sector, log`outstanding, log`committing, log`disk, log`cache, log`held, log`ops, log`pc, log`run, log`steps
    ensures AtRest(log) && log.Extends(old(log.run), old(log.steps)) && SameHome(log.layout, View(log.Abs()), fs.blocks)
    ensures FilesOf(sb, reserved, log.disk, fs, owner)
    ensures forall i :: |old(log.run)| - 1 <= i < |log.run| ==>
              || FilesAt(log.layout, log.run[i].disk, sb, reserved, fs0, owner0)
              || FilesAt(log.layout, log.run[i].disk, sb, reserved, fs, owner)
  {
    hide Inv, Recovered, SameHome, GoodDisk, View, Applied, Sectors, LogApart, FsOk, AllOrNone, FilesOf, FilesAt, Pushed, Homes, AtRest, log.RunOk;
    PushedValid(log, op, {});
    ghost var l, before, after, a := log.layout, log.disk, Applied(View(log.Abs()), ws), |log.run| - 1;
    HomeTransitive(l, Recovered(l, before), View(log.Abs()), fs0.blocks);
    AppliedHome(l, View(log.Abs()), fs0.blocks, ws);
    Finish(log, ws, op);
    RestValid(log);
    HomeTransitive(l, View(log.Abs()), after, fs.blocks);
    HomeTransitive(l, log.disk, after, fs.blocks);
    FilesOnDisk(l, sb, reserved, owner, fs, log.disk);
    forall i | a <= i < |log.run|
      ensures FilesAt(l, log.run[i].disk, sb, reserved, fs0, owner0) || FilesAt(l, log.run[i].disk, sb, reserved, fs, owner)
    {
      FilesBeforeOrAfter(l, sb, reserved, log.run[i].disk, before, after, fs0, owner0, fs, owner);
    }
  }

  lemma RestValid(log: L.Log)
    requires AtRest(log)
    ensures log.Valid()
  {
  }

  lemma HomesLength(l: Layout, a: seq<Block>, b: seq<Block>)
    requires SameHome(l, a, b)
    ensures |a| == |b| && Homes(l, |a|, [])
  {
  }

  /** The state right after begin_op. */
  lemma NothingYet(log: L.Log, op: OpId, sb: Super, reserved: set<nat>, fs: Fs, owner: map<nat, Slot>)
    requires Pushed(log, op, {}) && LogApart(log.layout, sb, reserved) && FsOk(sb, fs, reserved, owner)
    requires SameHome(log.layout, View(log.Abs()), fs.blocks)
    requires GoodDisk(log.layout, log.disk) && SameHome(log.layout, Recovered(log.layout, log.disk), View(log.Abs()))
    ensures |log.run| > 0 && FilesAt(log.layout, log.run[|log.run| - 1].disk, sb, reserved, fs, owner)
  {
    hide Recovered, SameHome, GoodDisk, View, LogApart, FsOk, FilesOf;
    log.ValidRun();
    HomeTransitive(log.layout, Recovered(log.layout, log.disk), View(log.Abs()), fs.blocks);
    FilesOnDisk(log.layout, sb, reserved, owner, fs, Recovered(log.layout, log.disk));
  }

  /** The files in memory are those the running log shows. */
  ghost predicate Mounted(log: L.Log, fs: FS.FileSystem)
    reads log, fs
  {
    && AtRest(log) && LogApart(log.layout, fs.sb, fs.reserved) && FsOk(fs.sb, fs.Abs(), fs.reserved, fs.owner)
    && SameHome(log.layout, View(log.Abs()), fs.blocks)
  }

  /** writei between begin_op and end_op.  Stopped anywhere, the machine recovers to
      a proper file system in which either nothing has changed or all of src is in
      its place, and after end_op it is the latter.  The call must fit the log. */
  method WriteCall(log: L.Log, fs: FS.FileSystem, inum: nat, src: seq<Byte>, off: Word, ghost op: OpId) returns (r: FS.WriteResult)
    requires Mounted(log, fs) && fs.sb.size <= BPB
    requires inum < fs.sb.ninodes && |src| < WORD_LIMIT
    requires inum < |fs.inodes| && Fits(log.layout, LogCount(fs.inodes[inum].size, off, |src|))
    modifies log`n, log`sector, log`outstanding, log`committing, log`disk, log`cache, log`held, log`ops, log`pc, log`run, log`steps
    modifies fs`blocks, fs`inodes, fs`owner, fs`writes
    ensures log.Extends(old(log.run), old(log.steps))
    ensures !r.Panicked? ==> Mounted(log, fs) && FilesOf(fs.sb, fs.reserved, log.disk, fs.Abs(), fs.owner)
    ensures r.Wrote? ==> WriteEffect(fs.sb, old(fs.Abs()), fs.Abs(), inum, off, src)
    ensures r.Refused? || r.ToDevice? ==> fs.Abs() == old(fs.Abs())
    ensures !r.Panicked? ==> |old(fs.blocks)| == |fs.blocks| >= 2 && fs.blocks[..2] == old(fs.blocks[..2])
    ensures r.ToDevice? <==> old(fs.inodes[inum].kind) == FS.T_DEV
    ensures r.Refused? <==> !r.ToDevice? && (off > old(fs.inodes[inum].size) || off + |src| > MAXFILE * BSIZE)
    ensures r.Panicked? ==> fs.DiskFull(fs.Abs()) && off + |src| > old(fs.inodes[inum].size)
    ensures forall i :: |old(log.run)| <= i < |log.run| ==>
              || FilesAt(log.layout, log.run[i].disk, fs.sb, fs.reserved, old(fs.Abs()), old(fs.owner))
              || (r.Wrote? && FilesAt(log.layout, log.run[i].disk, fs.sb, fs.reserved, fs.Abs(), fs.owner))
  {
    hide Recovered, SameHome, GoodDisk, View, Applied, Sectors, LogApart, Owned, FilesOf, FilesAt, Pushed, Homes, WriteEffect, WriteiLogs, log.RunOk, LogCount, FileOk;
    ghost var fs0, owner0 := fs.Abs(), fs.owner;
    OwnedShaped(fs.sb, fs0, fs.reserved, owner0);
    NoSectors();
    Begin(log, op);
    fs.writes := [];
    r := fs.Writei(inum, src, off);
    if r.Panicked? {
      NothingYet(log, op, fs.sb, fs.reserved, fs0, owner0);
      return;
    }
    HomesLength(log.layout, View(log.Abs()), fs0.blocks);
    AtLeastTwo(fs.sb, fs0, fs.reserved, inum);
    if r.Wrote? && src != [] {
      WriteHomes(log.layout, fs.sb, fs.Abs(), fs.reserved, owner0, fs.owner, fs.writes, inum, off, |src|, off + |src| > fs0.inodes[inum].size);
      FW.ChunkLogged(fs.sb, fs0, fs.Abs(), fs.reserved, owner0, fs.owner, fs.Logged(), inum, off, src);
      WriteAboveSuper(fs.sb, fs.Abs(), fs.reserved, owner0, fs.owner, fs.Logged(), inum, off, |src|, off + |src| > fs0.inodes[inum].size);
    }
    SuperKept(fs0.blocks, fs.blocks, fs.writes);
    EndCall(log, fs.writes, op, fs.sb, fs.reserved, fs0, owner0, fs.Abs(), fs.owner);
  }

  /** With a one-block map itrunc logs that block and the inode's. */
  lemma TruncHomes(l: Layout, sb: Super, fs: Fs, reserved: set<nat>, owner: map<nat, Slot>, ws: seq<Write>, inum: nat)
    requires LogApart(l, sb, reserved) && Owned(sb, fs, reserved, owner, {}, {}) && inum < sb.ninodes && sb.size <= BPB
    requires FS.MapLogged(sb, {IBlock(inum)}, Sectors(ws))
    ensures Homes(l, |fs.blocks|, ws) && |Sectors(ws)| <= 2
    ensures forall c :: c in Sectors(ws) ==> 2 <= c < sb.size
  {
    hide Ref, Sectors;
    var one := {IBlock(inum), BBlock(sb, 0)};
    forall c | c in Sectors(ws) ensures c in one && c < |fs.blocks| && c < WORD_LIMIT && !l.InLog(c) {
      if c != IBlock(inum) {
        assert IsMapBlock(sb, c);
        var b :| 0 <= b < sb.size && BBlock(sb, b) == c;
        assert b / BPB == 0;
      }
    }
    TruncAboveSuper(sb, reserved, Sectors(ws), inum);
    Subset(Sectors(ws), one);
    Subset(one, {IBlock(inum)} + {BBlock(sb, 0)});
    assert |{IBlock(inum)} + {BBlock(sb, 0)}| <= 2;
  }

  /** itrunc between begin_op and end_op: the file is empty after recovery, with its
      blocks free again, or it is as before; no other file changes. */
  method TruncCall(log: L.Log, fs: FS.FileSystem, inum: nat, ghost op: OpId) returns (ok: bool)
    requires Mounted(log, fs) && Fits(log.layout, 2) && fs.sb.size <= BPB && inum < fs.sb.ninodes
    modifies log`n, log`sector, log`outstanding, log`committing, log`disk, log`cache, log`held, log`ops, log`pc, log`run, log`steps
    modifies fs`blocks, fs`inodes, fs`owner, fs`writes
    ensures ok && Mounted(log, fs) && log.Extends(old(log.run), old(log.steps)) && |old(fs.inodes)| == fs.sb.ninodes
    ensures fs.inodes == old(fs.inodes)[inum := Emptied(old(fs.inodes[inum]))]
    ensures forall i :: 0 <= i < fs.sb.ninodes && i != inum ==> SameFile(fs.sb, old(fs.Abs()), fs.Abs(), i)
    ensures FilesOf(fs.sb, fs.reserved, log.disk, fs.Abs(), fs.owner)
    ensures |old(fs.blocks)| == |fs.blocks| >= 2 && fs.blocks[..2] == old(fs.blocks[..2])
    ensures forall i :: |old(log.run)| <= i < |log.run| ==>
              || FilesAt(log.layout, log.run[i].disk, fs.sb, fs.reserved, old(fs.Abs()), old(fs.owner))
              || FilesAt(log.layout, log.run[i].disk, fs.sb, fs.reserved, fs.Abs(), fs.owner)
  {
    hide Recovered, SameHome, GoodDisk, View, Applied, Sectors, LogApart, Owned, FilesOf, FilesAt, Pushed, Homes, FS.MapLogged, log.RunOk, FileOk, Content;
    ghost var fs0, owner0 := fs.Abs(), fs.owner;
    NoSectors();
    OwnedShaped(fs.sb, fs0, fs.reserved, owner0);
    Begin(log, op);
    fs.writes := [];
    ok := fs.Itrunc(inum);
    OwnedShaped(fs.sb, fs.Abs(), fs.reserved, fs.owner);
    HomesLength(log.layout, View(log.Abs()), fs0.blocks);
    assert {} + {IBlock(inum)} == {IBlock(inum)};
    TruncHomes(log.layout, fs.sb, fs.Abs(), fs.reserved, fs.owner, fs.writes, inum);
    AtLeastTwo(fs.sb, fs0, fs.reserved, inum);
    SuperKept(fs0.blocks, fs.blocks, fs.writes);
    EndCall(log, fs.writes, op, fs.sb, fs.reserved, fs0, owner0, fs.Abs(), fs.owner);
  }

  /** The end of some chunk of a write, or its beginning. */
  predicate ChunkEnd(n: nat, m: nat) {
    m <= n && (m == n || m % FW.CHUNK == 0)
  }

  /** The disk recovers to the files with some leading chunks of addr written. */
  ghost predicate LeadingChunks(l: Layout, d: seq<Block>, sb: Super, reserved: set<nat>, fs0: Fs, inum: nat, off: nat, addr: seq<Byte>) {
    exists fs: Fs, owner: map<nat, Slot>, m: nat ::
      ChunkEnd(|addr|, m) && FW.WrittenSoFar(sb, fs0, fs, inum, off, addr, m) && FilesAt(l, d, sb, reserved, fs, owner)
  }

  lemma ChunkSeen(l: Layout, d: seq<Block>, sb: Super, reserved: set<nat>, fs0: Fs, inum: nat, off: nat, addr: seq<Byte>,
                  fs: Fs, owner: map<nat, Slot>, m: nat)
    requires ChunkEnd(|addr|, m) && FW.WrittenSoFar(sb, fs0, fs, inum, off, addr, m) && FilesAt(l, d, sb, reserved, fs, owner)
    ensures LeadingChunks(l, d, sb, reserved, fs0, inum, off, addr)
  {
  }

  lemma NextChunk(n: nat, i: nat, n1: nat)
    requires i < n && ChunkEnd(n, i) && n1 == if n - i > FW.CHUNK then FW.CHUNK else n - i
    ensures 1 <= n1 <= n - i && ChunkEnd(n, i + n1)
  {
  }

  lemma RunGrows(log: L.Log, r: seq<State>, st: seq<Step>)
    requires log.Extends(r, st)
    ensures |r| <= |log.run| && forall q :: 0 <= q < |r| ==> log.run[q] == r[q]
  {
  }

  /** One round of filewrite: a chunk as a transaction.  `start` is where the run
      stood when filewrite was called. */
  method ChunkCall(log: L.Log, fs: FS.FileSystem, f: FW.OpenFile, addr: seq<Byte>, i: nat, ghost op: OpId,
                   ghost fs0: Fs, ghost off0: nat, ghost start: nat) returns (w: FS.WriteResult, n1: nat)
    requires Mounted(log, fs) && fs.sb.size <= BPB && 18 < log.layout.size && f.ip < fs.sb.ninodes
    requires i < |addr| < 0x8000_0000 && ChunkEnd(|addr|, i) && f.off == off0 + i
    requires FW.WrittenSoFar(fs.sb, fs0, fs.Abs(), f.ip, off0, addr, i)
    requires forall q :: start <= q < |log.run| ==>
               LeadingChunks(log.layout, log.run[q].disk, fs.sb, fs.reserved, fs0, f.ip, off0, addr)
    modifies log`n, log`sector, log`outstanding, log`committing, log`disk, log`cache, log`held, log`ops, log`pc, log`run, log`steps
    modifies fs`blocks, fs`inodes, fs`owner, fs`writes
    ensures log.Extends(old(log.run), old(log.steps)) && 1 <= n1 <= |addr| - i && n1 <= FW.CHUNK && ChunkEnd(|addr|, i + n1)
    ensures !w.Panicked? ==> Mounted(log, fs)
    ensures !w.Panicked? ==> FW.WrittenSoFar(fs.sb, fs0, fs.Abs(), f.ip, off0, addr, if w.Wrote? then i + n1 else i)
    ensures |old(fs.inodes)| == fs.sb.ninodes && (w.ToDevice? <==> old(fs.inodes[f.ip].kind) == FS.T_DEV)
    ensures w.Panicked? ==> fs.DiskFull(fs.Abs()) && f.off + n1 > old(fs.inodes[f.ip].size)
    ensures w.Refused? <==> !w.ToDevice? && (f.off > old(fs.inodes[f.ip].size) || f.off + n1 > MAXFILE * BSIZE)
    ensures forall q :: start <= q < |log.run| ==>
              LeadingChunks(log.layout, log.run[q].disk, fs.sb, fs.reserved, fs0, f.ip, off0, addr)
  {
    hide Mounted, FilesOf, FilesAt, LeadingChunks, LogCount, WriteEffect, FW.WrittenSoFar, ChunkEnd, log.Extends;
    n1 := if |addr| - i > FW.CHUNK then FW.CHUNK else |addr| - i;
    NextChunk(|addr|, i, n1);
    ghost var before, owner0, run0 := fs.Abs(), fs.owner, log.run;
    MountedShaped(log, fs);
    FW.ChunkBound(fs.inodes[f.ip].size, f.off, n1);
    w := WriteCall(log, fs, f.ip, addr[i..i + n1], f.off, op);
    if w.Wrote? { FW.ChunkDone(fs.sb, fs0, before, fs.Abs(), f.ip, off0, addr, i, n1); }
    RunGrows(log, run0, old(log.steps));
    forall q | start <= q < |log.run|
      ensures LeadingChunks(log.layout, log.run[q].disk, fs.sb, fs.reserved, fs0, f.ip, off0, addr)
    {
      if q < |run0| {
        assert log.run[q] == run0[q];
      } else if FilesAt(log.layout, log.run[q].disk, fs.sb, fs.reserved, before, owner0) {
        ChunkSeen(log.layout, log.run[q].disk, fs.sb, fs.reserved, fs0, f.ip, off0, addr, before, owner0, i);
      } else {
        ChunkSeen(log.layout, log.run[q].disk, fs.sb, fs.reserved, fs0, f.ip, off0, addr, fs.Abs(), fs.owner, i + n1);
      }
    }
  }

  /** filewrite through the log.  A long write is not atomic, but stopped anywhere
      the machine recovers to a proper file system that has some of its leading
      chunks and nothing else of it. */
  method FilewriteCall(log: L.Log, fs: FS.FileSystem, f: FW.OpenFile, addr: seq<Byte>, ghost op: OpId) returns (r: FW.FileResult)
    requires Mounted(log, fs) && fs.sb.size <= BPB && 18 < log.layout.size
    requires f.ip < fs.sb.ninodes && |addr| < 0x8000_0000
    modifies log`n, log`sector, log`outstanding, log`committing, log`disk, log`cache, log`held, log`ops, log`pc, log`run, log`steps
    modifies fs`blocks, fs`inodes, fs`owner, fs`writes, f`off
    ensures log.Extends(old(log.run), old(log.steps)) && |old(fs.inodes)| == fs.sb.ninodes
    ensures !r.Panicked? ==> Mounted(log, fs) && old(f.off) <= f.off && ChunkEnd(|addr|, f.off - old(f.off))
    ensures !r.Panicked? ==> FW.WrittenSoFar(fs.sb, old(fs.Abs()), fs.Abs(), f.ip, old(f.off), addr, f.off - old(f.off))
    ensures r.Done? ==> f.writable && r.n == f.off - old(f.off) == |addr|
    ensures r.Failed? ==> f.off == old(f.off) + FW.WrittenAtFailure(f.writable, old(fs.inodes[f.ip].size), old(f.off))
    ensures r.ToDevice? ==> f.writable && old(fs.inodes[f.ip].kind) == FS.T_DEV
    ensures r.Panicked? ==> f.writable && fs.DiskFull(fs.Abs()) && old(f.off) + |addr| > old(fs.inodes[f.ip].size)
    ensures r.Done? || r.Failed? ==>
              (r.Failed? <==> !f.writable || (addr != [] && (old(f.off) > old(fs.inodes[f.ip].size) || old(f.off) + |addr| > MAXFILE * BSIZE)))
    ensures forall i :: |old(log.run)| <= i < |log.run| ==>
              LeadingChunks(log.layout, log.run[i].disk, fs.sb, fs.reserved, old(fs.Abs()), f.ip, old(f.off), addr)
  {
    hide Mounted, LeadingChunks, FW.WrittenSoFar, FW.WrittenAtFailure;
    ghost var fs0, off0, start := fs.Abs(), f.off, |log.run|;
    StartsMounted(log, fs, f.ip, off0, addr);
    MountedShaped(log, fs);
    ghost var size0 := fs.inodes[f.ip].size;
    MountedSize(log, fs, f.ip);
    FW.NothingAtFailure(size0, off0);
    if !f.writable { return FW.Failed; }
    var i, n := 0, |addr|;
    while i < n
      invariant i <= n && f.off == off0 + i && Mounted(log, fs) && ChunkEnd(n, i) && (i > 0 ==> off0 + i <= MAXFILE * BSIZE)
      invariant FW.WrittenSoFar(fs.sb, fs0, fs.Abs(), f.ip, off0, addr, i) && log.Extends(old(log.run), old(log.steps))
      invariant forall q :: start <= q < |log.run| ==>
                  LeadingChunks(log.layout, log.run[q].disk, fs.sb, fs.reserved, fs0, f.ip, off0, addr)
    {
      MountedShaped(log, fs);
      FW.SizeAfter(fs.sb, fs0, fs.Abs(), f.ip, off0, addr, i);
      FW.DeviceStays(fs.sb, fs0, fs.Abs(), f.ip, off0, addr, i);
      var w, n1 := ChunkCall(log, fs, f, addr, i, op, fs0, off0, start);
      match w {
        case ToDevice => return FW.ToDevice;
        case Panicked => return FW.Panicked;
        case Refused =>
          FW.FailsAt(size0, off0, i, n1);
          return FW.Failed;
        case Wrote(k) =>
          f.off := f.off + n1;
          i := i + n1;
      }
    }
    MountedShaped(log, fs);
    FW.SizeAfter(fs.sb, fs0, fs.Abs(), f.ip, off0, addr, i);
    return FW.Done(n);
  }

  lemma StartsMounted(log: L.Log, fs: FS.FileSystem, inum: nat, off: nat, addr: seq<Byte>)
    requires Mounted(log, fs)
    ensures log.Extends(log.run, log.steps) && FW.WrittenSoFar(fs.sb, fs.Abs(), fs.Abs(), inum, off, addr, 0)
  {
    log.ValidRun();
  }

  lemma MountedSize(log: L.Log, fs: FS.FileSystem, inum: nat)
    requires Mounted(log, fs) && inum < fs.sb.ninodes
    ensures inum < |fs.inodes| && fs.inodes[inum].size <= MAXFILE * BSIZE
  {
    hide FsOk;
    FW.SizeFits(fs.sb, fs.Abs(), fs.reserved, fs.owner, inum);
  }

  lemma MountedShaped(log: L.Log, fs: FS.FileSystem)
    requires Mounted(log, fs)
    ensures Shaped(fs.sb, fs.Abs())
  {
    OwnedShaped(fs.sb, fs.Abs(), fs.reserved, fs.owner);
  }

  /** Disks that agree outside the log hold the same files. */
  lemma FilesMove(l: Layout, sb: Super, reserved: set<nat>, owner: map<nat, Slot>, fs: Fs, blocks: seq<Block>, blocks': seq<Block>)
    requires LogApart(l, sb, reserved) && FilesOf(sb, reserved, blocks, fs, owner) && SameHome(l, blocks', blocks)
    ensures FilesOf(sb, reserved, blocks', fs, owner)
  {
    hide Owned, FileOk, Content, DinodeAt, LogApart, SameHome;
    SameHomeSameFiles(l, sb, reserved, owner, blocks, blocks');
    var fs0, fs1 := Fs(blocks, InodesOf(sb, blocks)), Fs(blocks', InodesOf(sb, blocks'));
    OwnedShaped(sb, fs1, reserved, owner);
    forall i | 0 <= i < sb.ninodes ensures SameFile(sb, fs, fs1, i) { assert SameFile(sb, fs, fs0, i); }
  }

  /** After recovery nothing is in progress and memory agrees with the disk. */
  lemma RecoveredRests(log: L.Log)
    requires log.Valid() && log.pc.Running? && log.ops == map[]
    ensures SameHome(log.layout, View(log.Abs()), log.disk)
  {
    hide Inv, Recovered, log.RunOk;
    log.ValidInv();
    IdleFacts(log.layout, log.Abs());
    SettledIsDurable(log.layout, log.Abs());
    EmptyHeaderIsRecovered(log.layout, log.disk);
  }

  /** Power-up on a disk that recovers to the files of fs0: initlog recovers, however
      often that is interrupted, and the files are those of fs0. */
  method Boot(layout: Layout, disk: seq<Block>, sb: Super, ghost reserved: set<nat>, ghost fs0: Fs, ghost owner: map<nat, Slot>)
    returns (log: L.Log, fs: FS.FileSystem)
    requires LogApart(layout, sb, reserved) && FilesAt(layout, disk, sb, reserved, fs0, owner)
    ensures fresh(log) && fresh(fs) && log.layout == layout && fs.sb == sb && fs.reserved == reserved && fs.owner == owner
    ensures Mounted(log, fs) && fs.inodes == fs0.inodes && forall i :: 0 <= i < sb.ninodes ==> SameFile(sb, fs0, fs.Abs(), i)
    ensures forall i :: 0 <= i < |log.run| ==> FilesAt(layout, log.run[i].disk, sb, reserved, fs0, owner)
  {
    hide Recovered, SameHome, GoodDisk, View, LogApart, FsOk, Inv, SameFile;
    log := new L.Log(layout, disk);
    log.ValidInv();
    IdleFacts(layout, log.Abs());
    log.RecoverFromLog();
    RecoveredRests(log);
    FilesMove(layout, sb, reserved, owner, fs0, Recovered(layout, disk), log.disk);
    forall i | 0 <= i < |log.run| ensures FilesAt(layout, log.run[i].disk, sb, reserved, fs0, owner) {
      if i > 0 {
        FilesMove(layout, sb, reserved, owner, fs0, Recovered(layout, disk), Recovered(layout, log.run[i].disk));
      }
    }
    fs := new FS.FileSystem(sb, log.disk, InodesOf(sb, log.disk), reserved, owner);
  }
}
