/** The functions of log.c, each shown to perform steps of the log machine, and
    the crash behaviour of commit and recovery that follows. */
module Logging {
  import opened Types
  import opened Blocks
  import opened LogMachine

  /** Nobody holds a buffer that a commit or a recovery is going to use. */
  ghost predicate Unheld(l: Layout, s: State) {
    forall k :: k in s.held ==> !l.InLog(k) && k !in s.lh
  }

  lemma CanWriteLog(l: Layout, s: State, t: nat)
    requires InRange(l, s) && Unheld(l, s) && s.pc == WriteLog(t) && t < |s.lh|
    requires s.lh[t] in s.cache && l.start + 1 + t in s.cache
    ensures Follows(l, s, WriteLogBlock, Written(s, l.start + 1 + t, s.cache[s.lh[t]].data, WriteLog(t + 1)))
  {
  }

  lemma CanInstall(l: Layout, s: State, t: nat, recovering: bool)
    requires InRange(l, s) && Unheld(l, s) && s.pc == Install(t, recovering) && t < |s.lh|
    requires s.lh[t] in s.cache && l.start + 1 + t in s.cache
    ensures Follows(l, s, InstallBlock, Written(s, s.lh[t], s.cache[l.start + 1 + t].data, Install(t + 1, recovering)))
  {
  }

  lemma LastOp(ops: map<OpId, nat>, op: OpId)
    requires op in ops
    ensures |ops - {op}| == |ops| - 1 && (|ops| == 1 <==> ops - {op} == map[])
  {
    assert ops.Keys == (ops - {op}).Keys + {op};
    assert |(ops - {op}).Keys| == 0 ==> (ops - {op}).Keys == {};
  }

  lemma CanEndOp(l: Layout, s: State, op: OpId, ops: map<OpId, nat>, pc: Pc)
    requires InRange(l, s) && op in s.ops && ops == s.ops - {op} && forall k :: k in s.held ==> s.held[k].owner != op
    requires pc == if ops != map[] then s.pc else if |s.lh| == 0 then Finish else WriteLog(0)
    ensures Follows(l, s, EndOp(op), s.(ops := ops, pc := pc))
  {
  }

  lemma CanFetch(l: Layout, s: State, k: nat)
    requires InRange(l, s) && k < |s.disk| && k !in s.cache
    ensures Follows(l, s, Fetch(k), s.(cache := s.cache[k := Buf(s.disk[k], false)]))
  {
  }

  lemma CanAcquire(l: Layout, s: State, who: OpId, k: nat)
    requires InRange(l, s) && k in s.cache && k !in s.held
    ensures Follows(l, s, Acquire(who, k), s.(held := s.held[k := Hold(who, false, false)]))
  {
  }

  lemma CanModify(l: Layout, s: State, who: OpId, k: nat, data: Block)
    requires InRange(l, s) && who in s.ops && k in s.cache && !l.InLog(k) && k in s.held && s.held[k] == Hold(who, false, false)
    ensures Follows(l, s, Modify(who, k, data),
                    s.(cache := s.cache[k := s.cache[k].(data := data)], held := s.held[k := Hold(who, true, false)]))
  {
  }

  lemma CanLogWrite(l: Layout, s: State, who: OpId, k: Word)
    requires InRange(l, s) && who in s.ops && HeldBy(s, who, k) && s.held[k].checked && !l.InLog(k)
    requires k in s.cache && (k !in s.lh ==> MayLog(s, who) && |s.lh| + 1 < l.size)
    ensures Follows(l, s, LogWrite(who, k),
                    s.(cache := s.cache[k := s.cache[k].(dirty := true)],
                       held := s.held[k := Hold(who, false, false)],
                       lh := if k in s.lh then s.lh else s.lh + [k],
                       ops := if k in s.lh then s.ops else s.ops[who := s.ops[who] + 1]))
  {
  }

  /** Where control goes after a header write. */
  function AfterHeader(pc: Pc): Pc {
    if !pc.Clear? then Install(0, false) else if pc.recovering then Running else Finish
  }

  lemma CanWriteHeader(l: Layout, s: State)
    requires InRange(l, s) && Unheld(l, s) && 0 < l.size && l.start in s.cache && |s.lh| <= LOGSIZE
    requires s.pc == WriteLog(|s.lh|) || (s.pc.Clear? && s.lh == [])
    ensures Follows(l, s, if s.pc.Clear? then ClearHead else WriteHead,
                    Written(s, l.start, EncodeHeader(s.cache[l.start].data, s.lh), AfterHeader(s.pc)))
  {
  }

  lemma CommittingAfterEnd()
    ensures !Committing(Running) && Committing(Finish) && Committing(WriteLog(0))
  {
  }

  lemma StoredView(s: State, s': State, k: nat, data: Block)
    requires k < |s.disk| && s'.disk == s.disk && s'.cache == s.cache[k := Buf(data, true)]
    ensures View(s') == View(s)[k := data]
  {
  }

  predicate Committing(pc: Pc) {
    pc.WriteLog? || pc.Finish? || (pc.Install? && !pc.recovering) || (pc.Clear? && !pc.recovering)
  }

  /** The global `log`, together with the disk and the buffer cache under it.
      The ghost fields name the operations in progress, the buffers they hold
      and the run of machine states gone through so far. */
  class Log {
    const layout: Layout
    var sector: seq<Word>
    var n: nat
    var outstanding: nat
    var committing: bool
    var disk: seq<Block>
    var cache: map<nat, Buf>
    ghost var held: map<nat, Hold>
    ghost var ops: map<OpId, nat>
    ghost var pc: Pc
    ghost var run: seq<State>
    ghost var steps: seq<Step>

    /** Memory at power-up, with nothing recovered yet. */
    constructor (layout: Layout, disk: seq<Block>)
      requires GoodDisk(layout, disk)
      ensures Valid() && this.layout == layout && this.disk == disk && pc == Boot && held == map[] && run == [Booted(disk)]
    {
      this.layout, this.disk, this.cache, this.n, outstanding, committing := layout, disk, map[], 0, 0, false;
      this.sector := seq(LOGSIZE, i => 0);
      held, ops, pc, run, steps := map[], map[], Boot, [Booted(disk)], [];
      new;
      BootedKeepsInv(layout, disk);
    }

    ghost function Abs(): State
      reads this
      requires n <= |sector|
    {
      State(disk, cache, held, sector[..n], ops, pc)
    }

    ghost predicate Valid()
      reads this
    {
      && |sector| == LOGSIZE && n <= LOGSIZE
      && outstanding == |ops|
      && (committing <==> Committing(pc))
      && RunOk() && run[|run| - 1] == Abs()
    }

    /** The record is a run of the machine from a state satisfying its invariant. */
    ghost predicate RunOk()
      reads this`run, this`steps
      ensures RunOk() ==> |run| == |steps| + 1
    {
      |run| == |steps| + 1 && IsRun(layout, run, steps) && Inv(layout, run[0])
    }

    /** This object went from the recorded run `r` to the present one. */
    ghost predicate Extends(r: seq<State>, st: seq<Step>)
      reads this
    {
      r <= run && st <= steps && 0 < |r| == |st| + 1
    }

    lemma ValidInv()
      requires Valid()
      ensures Inv(layout, Abs())
    {
      RunKeepsInv(layout, run, steps, |run| - 1);
    }

    lemma ValidRun()
      requires Valid()
      ensures |run| == |steps| + 1 && IsRun(layout, run, steps) && Inv(layout, run[0]) && run[|run| - 1] == Abs()
    {
    }

    /** Record a step that the fields have just gone through. */
    ghost method Record(step: Step)
      requires n <= |sector| && RunOk() && Follows(layout, run[|run| - 1], step, Abs())
      modifies this`run, this`steps
      ensures run == old(run) + [Abs()] && steps == old(steps) + [step]
      ensures RunOk() && Extends(old(run), old(steps)) && run[|run| - 1] == Abs()
    {
      RunExtends(layout, run, steps, step, Abs());
      run, steps := run + [Abs()], steps + [step];
    }

    /** bread of a sector nobody holds; the data is in the cache afterwards. */
    method Bread(k: nat) returns (data: Block)
      requires Valid() && k < |disk|
      modifies this`cache, this`run, this`steps
      ensures Valid() && Extends(old(run), old(steps))
      ensures NoCommit(steps, |old(steps)|) && NoChange(steps, |old(steps)|)
      ensures k in cache && cache[k].data == data
      ensures cache == if k in old(cache) then old(cache) else old(cache)[k := Buf(disk[k], false)]
    {
      hide RunOk, Inv, Follows, InRange;
      if k !in cache {
        InBounds(0);
        CanFetch(layout, Abs(), k);
        cache := cache[k := Buf(disk[k], false)];
        Record(Fetch(k));
      }
      data := cache[k].data;
    }

    /** bwrite: one sector write, which is one step of the machine. */
    method Bwrite(k: nat, data: Block, ghost step: Step, ghost after: Pc)
      requires Valid() && k < |disk| && Follows(layout, Abs(), step, Written(Abs(), k, data, after))
      requires Committing(after) == Committing(pc)
      modifies this`disk, this`cache, this`pc, this`run, this`steps
      ensures Valid() && Extends(old(run), old(steps)) && steps == old(steps) + [step]
      ensures pc == after && disk == old(disk)[k := data]
    {
      hide RunOk, Inv, Follows, InRange;
      disk := disk[k := data];
      cache := cache[k := Buf(data, false)];
      pc := after;
      Record(step);
    }

    lemma InBounds(tail: nat)
      requires Valid() && (tail < n || tail == 0)
      ensures InRange(layout, Abs()) && layout.start < |disk| && 0 < layout.size
      ensures tail < n ==> layout.start + tail + 1 < |disk| && sector[tail] < |disk|
    {
      ValidInv();
      assert tail < n ==> Abs().lh[tail] == sector[tail];
    }

    /** One round of write_log: the cached sector goes to its log block. */
    method CopyToLogBlock(tail: nat)
      requires Valid() && pc == WriteLog(tail) && tail < n && Unheld(layout, Abs())
      modifies this`disk, this`cache, this`pc, this`run, this`steps
      ensures Valid() && Extends(old(run), old(steps)) && pc == WriteLog(tail + 1)
      ensures NoCommit(steps, |old(steps)|) && NoChange(steps, |old(steps)|)
    {
      hide RunOk, Inv, Follows, InRange;
      InBounds(tail);
      var _ := Bread(layout.start + 1 + tail);
      var from := Bread(sector[tail]);
      InBounds(tail);
      CanWriteLog(layout, Abs(), tail);
      Bwrite(layout.start + 1 + tail, from, WriteLogBlock, WriteLog(tail + 1));
    }

    /** write_log: copy the logged sectors from the cache into the log. */
    method WriteLogBlocks()
      requires Valid() && pc == WriteLog(0) && Unheld(layout, Abs())
      modifies this`disk, this`cache, this`pc, this`run, this`steps
      ensures Valid() && Extends(old(run), old(steps)) && pc == WriteLog(n)
      ensures NoCommit(steps, |old(steps)|) && NoChange(steps, |old(steps)|)
    {
      hide RunOk, Inv;
      var tail := 0;
      while tail < n
        invariant tail <= n && pc == WriteLog(tail)
        invariant Valid() && Extends(old(run), old(steps)) && Unheld(layout, Abs())
        invariant NoCommit(steps, |old(steps)|) && NoChange(steps, |old(steps)|)
      {
        CopyToLogBlock(tail);
        tail := tail + 1;
      }
    }

    /** The copying loop of write_head: entries past n keep their old bytes. */
    method FillHeader(data: Block) returns (b: Block)
      requires n <= LOGSIZE == |sector|
      ensures b == EncodeHeader(data, sector[..n])
    {
      b := SetWord(data, 0, n);
      var i := 0;
      while i < n
        invariant i <= n && b == PutSectors(data, sector[..n], i)
      {
        b := SetWord(b, i + 1, sector[i]);
        i := i + 1;
      }
    }

    /** write_head: the in-memory header goes to disk in one sector write. */
    method WriteHeader()
      requires Valid() && Unheld(layout, Abs())
      requires pc == WriteLog(n) || (pc.Clear? && n == 0)
      modifies this`disk, this`cache, this`pc, this`run, this`steps
      ensures Valid() && Extends(old(run), old(steps)) && NoChange(steps, |old(steps)|)
      ensures |steps| > |old(steps)| && NoCommit(steps[..|steps| - 1], |old(steps)|)
      ensures steps[|steps| - 1] == if old(pc.Clear?) then ClearHead else WriteHead
      ensures pc == AfterHeader(old(pc))
    {
      hide RunOk, Inv, Follows, InRange, EncodeHeader;
      InBounds(0);
      var data := Bread(layout.start);
      var b := FillHeader(data);
      InBounds(0);
      CanWriteHeader(layout, Abs());
      ghost var before := steps;
      Bwrite(layout.start, b, if pc.Clear? then ClearHead else WriteHead, AfterHeader(pc));
      assert steps[..|steps| - 1] == before;
    }

    /** One round of install_trans: a log block goes to its home sector. */
    method InstallLogBlock(tail: nat)
      requires Valid() && pc.Install? && pc.tail == tail < n && Unheld(layout, Abs())
      modifies this`disk, this`cache, this`pc, this`run, this`steps
      ensures Valid() && Extends(old(run), old(steps)) && pc == Install(tail + 1, old(pc.recovering))
      ensures NoCommit(steps, |old(steps)|) && NoChange(steps, |old(steps)|)
    {
      hide RunOk, Inv, Follows, InRange;
      InBounds(tail);
      var lbuf := Bread(layout.start + 1 + tail);
      var _ := Bread(sector[tail]);
      InBounds(tail);
      CanInstall(layout, Abs(), tail, pc.recovering);
      Bwrite(sector[tail], lbuf, InstallBlock, Install(tail + 1, pc.recovering));
    }

    /** install_trans: copy committed blocks from the log to their homes. */
    method InstallTrans()
      requires Valid() && Unheld(layout, Abs()) && pc.Install? && pc.tail == 0
      modifies this`disk, this`cache, this`pc, this`run, this`steps
      ensures Valid() && Extends(old(run), old(steps)) && pc == Install(n, old(pc.recovering))
      ensures NoCommit(steps, |old(steps)|) && NoChange(steps, |old(steps)|)
    {
      hide RunOk, Inv;
      var tail := 0;
      while tail < n
        invariant tail <= n && pc == Install(tail, old(pc.recovering))
        invariant Valid() && Extends(old(run), old(steps)) && Unheld(layout, Abs())
        invariant NoCommit(steps, |old(steps)|) && NoChange(steps, |old(steps)|)
      {
        InstallLogBlock(tail);
        tail := tail + 1;
      }
    }

    method LoadHeader(data: Block)
      requires HeaderCount(data) <= LOGSIZE == |sector|
      modifies this`n, this`sector
      ensures n <= LOGSIZE == |sector| && sector[..n] == HeaderOf(data)
    {
      n := HeaderCount(data);
      var i := 0;
      while i < n
        invariant i <= n == HeaderCount(data) && |sector| == LOGSIZE
        invariant forall j :: 0 <= j < i ==> sector[j] == WordAt(data, j + 1)
      {
        sector := sector[i := WordAt(data, i + 1)];
        i := i + 1;
      }
    }

    /** recover_from_log's read_head: the on-disk header becomes the in-memory one. */
    method ReadHeader()
      requires Valid() && held == map[] && pc.Boot?
      modifies this`n, this`sector, this`cache, this`pc, this`run, this`steps
      ensures Valid() && Extends(old(run), old(steps)) && pc == Install(0, true)
      ensures NoCommit(steps, |old(steps)|)
    {
      hide RunOk, Inv, Follows, InRange, HeaderOf, HeaderCount;
      InBounds(0);
      var data := Bread(layout.start);
      ValidInv();
      CanReadHead(layout, Abs());
      LoadHeader(data);
      pc := Install(0, true);
      Record(ReadHead);
    }

    /** log.lh.n = 0 */
    method Forget()
      requires Valid() && pc.Install? && pc.tail == n
      modifies this`n, this`pc, this`run, this`steps
      ensures Valid() && Extends(old(run), old(steps)) && steps == old(steps) + [InstallDone]
      ensures n == 0 && pc == Clear(old(pc.recovering))
    {
      hide RunOk, Inv;
      ValidInv();
      InBounds(0);
      n := 0;
      pc := Clear(pc.recovering);
      Record(InstallDone);
    }

    /** recover_from_log.  However often it was interrupted before, it leaves in
        every home sector exactly what the disk it started from stands for, an
        empty log, and no moment at which the disk stood for anything else. */
    method RecoverFromLog()
      requires Valid() && held == map[] && pc.Boot?
      modifies this`n, this`sector, this`disk, this`cache, this`pc, this`run, this`steps
      ensures Valid() && Extends(old(run), old(steps)) && pc.Running? && n == 0
      ensures GoodDisk(layout, old(disk)) && SameHome(layout, disk, Recovered(layout, old(disk)))
      ensures forall i :: |old(run)| <= i < |run| ==>
                GoodDisk(layout, run[i].disk) && SameHome(layout, Recovered(layout, run[i].disk), Recovered(layout, old(disk)))
    {
      hide RunOk, Inv, Recovered, SameHome, GoodDisk, Committing;
      ghost var start := |steps|;
      ValidInv();
      IdleFacts(layout, Abs());
      ReadHeader();
      InstallTrans();
      Forget();
      WriteHeader();
      RecoveryDone(start, old(disk));
    }

    lemma RecoveryDone(a: nat, d: seq<Block>)
      requires Valid() && pc.Running? && ops == map[] && a < |run| && run[a].disk == d && NoCommit(steps, a)
      ensures GoodDisk(layout, d) && SameHome(layout, disk, Recovered(layout, d))
      ensures forall i :: a <= i < |run| ==>
                GoodDisk(layout, run[i].disk) && SameHome(layout, Recovered(layout, run[i].disk), Recovered(layout, d))
    {
      hide Inv, GoodDisk, Recovered, IsRun;
      RunKeepsInv(layout, run, steps, a);
      IdleFacts(layout, run[a]);
      forall i | a <= i < |run|
        ensures GoodDisk(layout, run[i].disk) && SameHome(layout, Recovered(layout, run[i].disk), Recovered(layout, d))
      {
        SegmentKeepsRecovered(layout, run, steps, a, i);
        RunKeepsInv(layout, run, steps, i);
        IdleFacts(layout, run[i]);
      }
      ValidInv();
      IdleFacts(layout, Abs());
      EmptyHeaderIsRecovered(layout, disk);
    }

    /** commit.  Seen from a crash at any moment, the home sectors are all old
        before the header write, which is step c - 1, and all new from then on. */
    method Commit() returns (ghost c: nat)
      requires Valid() && Unheld(layout, Abs()) && n > 0 && pc == WriteLog(0)
      modifies this`n, this`disk, this`cache, this`pc, this`run, this`steps
      ensures Valid() && Extends(old(run), old(steps)) && n == 0 && pc == Finish
      ensures CommitsAt(steps, |old(steps)|, c)
      ensures forall i :: |old(steps)| <= i < |run| ==>
                GoodDisk(layout, run[i].disk) && GoodDisk(layout, old(disk)) &&
                SameHome(layout, Recovered(layout, run[i].disk), if i < c then Recovered(layout, old(disk)) else old(View(Abs())))
    {
      hide RunOk, Inv, Committing, CommitsAt, Recovered, View, GoodDisk, SameHome, Unheld;
      c := PerformCommit();
      CommitDone(|old(steps)|, c, old(Abs()));
    }

    method PerformCommit() returns (ghost c: nat)
      requires Valid() && Unheld(layout, Abs()) && n > 0 && pc == WriteLog(0)
      modifies this`n, this`disk, this`cache, this`pc, this`run, this`steps
      ensures Valid() && Extends(old(run), old(steps)) && n == 0 && pc == Finish
      ensures CommitsAt(steps, |old(steps)|, c)
    {
      hide Valid;
      WriteLogBlocks();
      WriteHeader();
      c := |steps|;
      InstallTrans();
      Forget();
      WriteHeader();
    }

    lemma CommitDone(a: nat, c: nat, s: State)
      requires Valid() && CommitsAt(steps, a, c) && a < |run| && run[a] == s && s.pc == WriteLog(0)
      ensures forall i :: a <= i < |run| ==>
                GoodDisk(layout, run[i].disk) && GoodDisk(layout, s.disk) &&
                SameHome(layout, Recovered(layout, run[i].disk), if i < c then Recovered(layout, s.disk) else View(s))
    {
      hide IsRun, Inv, Recovered, View, GoodDisk, SameHome;
      RunKeepsInv(layout, run, steps, a);
      IdleFacts(layout, run[a]);
      forall i | a <= i < |run|
        ensures GoodDisk(layout, run[i].disk)
        ensures SameHome(layout, Recovered(layout, run[i].disk), if i < c then Recovered(layout, s.disk) else View(s))
      {
        RunKeepsInv(layout, run, steps, i);
        IdleFacts(layout, run[i]);
        CommitIsAtomic(layout, run, steps, a, c, i);
      }
    }

    /** begin_op; false means the caller sleeps and tries again. */
    method BeginOp(ghost op: OpId) returns (admitted: bool)
      requires Valid() && op !in ops && (pc.Running? || committing)
      modifies this`outstanding, this`ops, this`run, this`steps
      ensures Valid() && Extends(old(run), old(steps))
      ensures admitted <==> pc.Running? && n + (|old(ops)| + 1) * MAXOPBLOCKS <= LOGSIZE
      ensures ops == if admitted then old(ops)[op := 0] else old(ops)
      ensures admitted ==> steps == old(steps) + [LogMachine.BeginOp(op)]
    {
      hide RunOk, Inv;
      if committing || n + (outstanding + 1) * MAXOPBLOCKS > LOGSIZE {
        return false;
      }
      ValidInv();
      InBounds(0);
      outstanding := outstanding + 1;
      ops := ops[op := 0];
      Record(LogMachine.BeginOp(op));
      return true;
    }

    /** end_op.  When it returns with nothing else outstanding, everything the
        operations saw is on disk in its home sectors and the log is empty; a
        crash on the way recovers to all of it or to none of it. */
    method EndOp(ghost op: OpId)
      requires Valid() && op in ops && forall k :: k in held ==> held[k].owner != op
      requires |ops| == 1 ==> Unheld(layout, Abs())
      modifies this`n, this`outstanding, this`committing, this`disk, this`cache, this`ops, this`pc, this`run, this`steps
      ensures Valid() && Extends(old(run), old(steps)) && pc.Running? && ops == old(ops) - {op}
      ensures SameHome(layout, View(Abs()), old(View(Abs())))
      ensures ops == map[] ==> n == 0 && SameHome(layout, disk, old(View(Abs())))
      ensures forall i :: |old(run)| <= i < |run| ==>
                && GoodDisk(layout, run[i].disk) && GoodDisk(layout, old(disk))
                && (SameHome(layout, Recovered(layout, run[i].disk), Recovered(layout, old(disk)))
                    || (ops == map[] && SameHome(layout, Recovered(layout, run[i].disk), old(View(Abs())))))
    {
      hide RunOk, Inv, Recovered, View, SameHome, GoodDisk, Committing;
      ghost var a, c := |steps|, 0;
      LastOp(ops, op);
      var last := LeaveOp(op);
      if last {
        c := CommitAll();
      }
      TransactionDone(a, c);
    }

    /** commit, and back to running. */
    method CommitAll() returns (ghost c: nat)
      requires Valid() && Unheld(layout, Abs()) && pc == if n == 0 then Finish else WriteLog(0)
      modifies this`n, this`committing, this`disk, this`cache, this`pc, this`run, this`steps
      ensures Valid() && Extends(old(run), old(steps)) && pc == Running && n == 0
      ensures if old(n) == 0 then c == 0 && steps == old(steps) + [FinishCommit] else CommitsAt(steps, |old(steps)|, c)
    {
      hide RunOk, Inv, Recovered, View, SameHome, GoodDisk, Committing, Unheld;
      c := 0;
      if n > 0 { c := PerformCommit(); }
      FinishOp();
    }

    /** The part of end_op under the lock; true if the caller is to commit. */
    method LeaveOp(ghost op: OpId) returns (last: bool)
      requires Valid() && op in ops && forall k :: k in held ==> held[k].owner != op
      modifies this`outstanding, this`committing, this`ops, this`pc, this`run, this`steps
      ensures Valid() && Extends(old(run), old(steps)) && steps == old(steps) + [LogMachine.EndOp(op)]
      ensures old(pc.Running?) && ops == old(ops) - {op} && (last <==> ops == map[])
      ensures pc == if !last then Running else if n == 0 then Finish else WriteLog(0)
    {
      hide RunOk, Inv, Follows, InRange, Committing, CacheOk;
      ValidInv();
      IdleFacts(layout, Abs());
      CommittingAfterEnd();
      LastOp(ops, op);
      outstanding := outstanding - 1;
      last := outstanding == 0;
      ghost var left := ops - {op};
      ghost var next := if !last then pc else if n == 0 then Finish else WriteLog(0);
      CanEndOp(layout, Abs(), op, left, next);
      committing := last;
      ops, pc := left, next;
      Record(LogMachine.EndOp(op));
    }

    /** committing = 0, after which begin_op admits operations again. */
    method FinishOp()
      requires Valid() && pc == Finish
      modifies this`committing, this`pc, this`run, this`steps
      ensures Valid() && Extends(old(run), old(steps)) && steps == old(steps) + [FinishCommit] && pc == Running
    {
      hide RunOk, Inv;
      ValidInv();
      InBounds(0);
      committing := false;
      pc := Running;
      Record(FinishCommit);
    }

    lemma TransactionDone(a: nat, c: nat)
      requires Valid() && pc.Running? && a < |run| && run[a].pc.Running? && NoChange(steps, a)
      requires if c == 0 then NoCommit(steps, a) else CommitsAt(steps, a, c)
      ensures SameHome(layout, View(Abs()), View(run[a]))
      ensures ops == map[] ==> n == 0 && SameHome(layout, disk, View(run[a]))
      ensures forall i :: a <= i < |run| ==>
                && GoodDisk(layout, run[i].disk) && GoodDisk(layout, run[a].disk)
                && (SameHome(layout, Recovered(layout, run[i].disk), Recovered(layout, run[a].disk))
                    || (c > 0 && SameHome(layout, Recovered(layout, run[i].disk), View(run[a]))))
    {
      hide IsRun, Inv, Recovered, View, GoodDisk;
      RunKeepsInv(layout, run, steps, a);
      IdleFacts(layout, run[a]);
      forall i | a <= i < |run|
        ensures GoodDisk(layout, run[i].disk)
        ensures SameHome(layout, Recovered(layout, run[i].disk), Recovered(layout, run[a].disk))
                || (c > 0 && SameHome(layout, Recovered(layout, run[i].disk), View(run[a])))
      {
        RunKeepsInv(layout, run, steps, i);
        IdleFacts(layout, run[i]);
        if c == 0 { SegmentKeepsRecovered(layout, run, steps, a, i); } else { CommitIsAtomic(layout, run, steps, a, c, i); }
      }
      SegmentKeepsView(layout, run, steps, a, |run| - 1);
      ValidInv();
      IdleFacts(layout, Abs());
      if ops == map[] {
        SettledIsDurable(layout, Abs());
        EmptyHeaderIsRecovered(layout, disk);
      }
    }

    /** log_write.  `ok` is false where the source panics. */
    method LogWrite(k: Word, ghost who: OpId) returns (ok: bool)
      requires Valid() && who in ops && !layout.InLog(k) && k in cache
      requires k in held && held[k].owner == who
      requires k !in sector[..n] ==> MayLog(Abs(), who)
      modifies this`n, this`sector, this`cache, this`held, this`ops, this`run, this`steps
      ensures Valid() && Extends(old(run), old(steps))
      ensures ok <==> old(SizeGuardPasses(layout, Abs()))
      ensures LOGSIZE < layout.size && old(k !in sector[..n]) ==> ok
      ensures ok ==> sector[..n] == if k in old(sector[..n]) then old(sector[..n]) else old(sector[..n]) + [k]
      ensures ok ==> cache == old(cache)[k := old(cache[k]).(dirty := true)] && held == old(held)[k := Hold(who, false, false)]
      ensures ok ==> ops == if k in old(sector[..n]) then old(ops) else old(ops)[who := old(ops[who]) + 1]
      ensures NoCommit(steps, |old(steps)|)
      ensures !ok ==> Abs() == old(Abs())
    {
      hide RunOk, Inv;
      ValidInv();
      GuardAdmits(layout, Abs(), who);
      if n >= LOGSIZE || n >= layout.size - 1 {
        return false;
      }
      PassGuard(k, who);
      Enter(k, who);
      return true;
    }

    ghost method PassGuard(k: Word, who: OpId)
      requires Valid() && who in ops && !layout.InLog(k) && k in held && held[k].owner == who
      requires n < LOGSIZE && n < layout.size - 1
      modifies this`held, this`run, this`steps
      ensures Valid() && Extends(old(run), old(steps)) && held == old(held)[k := old(held[k]).(checked := true)]
      ensures NoCommit(steps, |old(steps)|)
    {
      hide RunOk, Inv;
      InBounds(0);
      held := held[k := held[k].(checked := true)];
      Record(CheckSize(who, k));
    }

    /** The absorbing search: the position of k in the header, or n. */
    method FindSector(k: Word) returns (i: nat)
      requires n <= |sector|
      ensures i <= n && (i < n ==> sector[i] == k) && (i == n <==> k !in sector[..n])
    {
      i := 0;
      while i < n && sector[i] != k
        invariant i <= n && k !in sector[..i]
      {
        i := i + 1;
      }
    }

    /** The sector goes into the header, unless it is there. */
    method AddSector(k: Word) returns (added: bool)
      requires |sector| == LOGSIZE && n < LOGSIZE
      modifies this`n, this`sector
      ensures |sector| == LOGSIZE && n <= LOGSIZE && (added <==> k !in old(sector[..n]))
      ensures sector[..n] == if added then old(sector[..n]) + [k] else old(sector[..n])
    {
      var i := FindSector(k);
      added := i == n;
      sector := sector[i := k];
      if added {
        n := n + 1;
      }
    }

    /** The part of log_write under the lock. */
    method Enter(k: Word, ghost who: OpId)
      requires Valid() && who in ops && !layout.InLog(k) && k in cache && n < LOGSIZE
      requires k in held && held[k].owner == who && held[k].checked
      requires k !in sector[..n] ==> MayLog(Abs(), who) && n + 1 < layout.size
      modifies this`n, this`sector, this`cache, this`held, this`ops, this`run, this`steps
      ensures Valid() && Extends(old(run), old(steps))
      ensures sector[..n] == if k in old(sector[..n]) then old(sector[..n]) else old(sector[..n]) + [k]
      ensures cache == old(cache)[k := old(cache[k]).(dirty := true)]
      ensures held == old(held)[k := Hold(who, false, false)]
      ensures ops == if k in old(sector[..n]) then old(ops) else old(ops)[who := old(ops[who]) + 1]
      ensures NoCommit(steps, |old(steps)|)
    {
      hide RunOk, Inv, Follows, InRange, Committing;
      InBounds(0);
      CanLogWrite(layout, Abs(), who, k);
      var added := AddSector(k);
      if added {
        ops := ops[who := ops[who] + 1];
      }
      cache := cache[k := cache[k].(dirty := true)];
      held := held[k := Hold(who, false, false)];
      Record(LogMachine.LogWrite(who, k));
    }

    /** The end of bread: the caller holds the buffer. */
    ghost method Lock(k: nat, who: OpId)
      requires Valid() && k in cache && k !in held
      modifies this`held, this`run, this`steps
      ensures Valid() && Extends(old(run), old(steps)) && NoCommit(steps, |old(steps)|)
      ensures held == old(held)[k := Hold(who, false, false)]
    {
      hide RunOk, Inv, Follows, InRange, Committing;
      InBounds(0);
      CanAcquire(layout, Abs(), who, k);
      held := held[k := Hold(who, false, false)];
      Record(Acquire(who, k));
    }

    /** The holder changes the data. */
    method Change(k: nat, data: Block, ghost who: OpId)
      requires Valid() && who in ops && k in cache && !layout.InLog(k) && k in held && held[k] == Hold(who, false, false)
      modifies this`cache, this`held, this`run, this`steps
      ensures Valid() && Extends(old(run), old(steps)) && NoCommit(steps, |old(steps)|)
      ensures cache == old(cache)[k := old(cache[k]).(data := data)] && held == old(held)[k := Hold(who, true, false)]
    {
      hide RunOk, Inv, Follows, InRange, Committing;
      InBounds(0);
      CanModify(layout, Abs(), who, k, data);
      cache, held := cache[k := cache[k].(data := data)], held[k := Hold(who, true, false)];
      Record(Modify(who, k, data));
    }

    /** bread, then the change. */
    method Edit(k: nat, data: Block, ghost who: OpId)
      requires Valid() && who in ops && k < |disk| && !layout.InLog(k) && k !in held
      modifies this`cache, this`held, this`run, this`steps
      ensures Valid() && Extends(old(run), old(steps)) && NoCommit(steps, |old(steps)|)
      ensures cache == old(cache)[k := Buf(data, k in old(cache) && old(cache[k]).dirty)]
      ensures held == old(held)[k := Hold(who, true, false)]
    {
      hide RunOk, Inv, Committing;
      var _ := Bread(k);
      Lock(k, who);
      Change(k, data, who);
    }

    /** brelse of a buffer that was logged. */
    ghost method Brelse(k: nat, who: OpId)
      requires Valid() && k in held && held[k].owner == who && !held[k].unlogged
      modifies this`held, this`run, this`steps
      ensures Valid() && Extends(old(run), old(steps)) && NoCommit(steps, |old(steps)|) && held == old(held) - {k}
    {
      hide RunOk, Inv, Committing;
      InBounds(0);
      held := held - {k};
      Record(Release(who, k));
    }

    /** What every function of fs.c that changes a block does: bread, the change,
        log_write, brelse.  `ok` is false where log_write panics. */
    method Store(k: Word, data: Block, ghost who: OpId) returns (ok: bool)
      requires Valid() && who in ops && k < |disk| && !layout.InLog(k) && k !in held
      requires k !in sector[..n] ==> MayLog(Abs(), who)
      modifies this`n, this`sector, this`cache, this`held, this`ops, this`run, this`steps
      ensures Valid() && Extends(old(run), old(steps)) && NoCommit(steps, |old(steps)|)
      ensures ok <==> old(SizeGuardPasses(layout, Abs()))
      ensures ok ==> held == old(held) && View(Abs()) == old(View(Abs()))[k := data]
      ensures ok ==> sector[..n] == if k in old(sector[..n]) then old(sector[..n]) else old(sector[..n]) + [k]
      ensures ok ==> ops == if k in old(sector[..n]) then old(ops) else old(ops)[who := old(ops[who]) + 1]
    {
      hide RunOk, Inv, Committing, View;
      Edit(k, data, who);
      ok := LogWrite(k, who);
      if ok {
        Brelse(k, who);
        StoredView(old(Abs()), Abs(), k, data);
      }
    }
  }

  /** An operation that may log a new sector finds room in a log of more than LOGSIZE
      blocks. */
  lemma GuardAdmits(l: Layout, s: State, who: OpId)
    requires Inv(l, s) && who in s.ops
    ensures LOGSIZE < l.size && MayLog(s, who) ==> SizeGuardPasses(l, s)
  {
    UnusedRemove(s.ops, who);
    UnusedBounds(s.ops - {who});
  }

  lemma CanReadHead(l: Layout, s: State)
    requires Inv(l, s) && s.pc.Boot? && s.held == map[] && l.start in s.cache
    ensures var data := s.cache[l.start].data;
            && HeaderCount(data) <= LOGSIZE
            && Follows(l, s, ReadHead, s.(lh := HeaderOf(data), pc := Install(0, true)))
  {
    LogBufferClean(l, s, l.start);
  }
}
