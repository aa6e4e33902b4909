/** The write-ahead log of log.c as a step machine over the disk, the buffer
    cache, the in-memory header and the operations in progress.  Every sector
    write is a step of its own and a crash may come between any two steps. */
module LogMachine {
  import opened Types
  import opened Blocks

  const MAXOPBLOCKS := 10
  const LOGSIZE := 30

  type OpId = nat

  /** The log occupies sectors start .. start+size: a header, then data. */
  datatype Layout = Layout(start: nat, size: nat) {
    predicate InLog(k: nat) { start <= k < start + size }
  }

  // ----- the header sector

  /** lh->n is a signed int: a loop bounded by a negative count does nothing. */
  function HeaderCount(b: Block): nat {
    if WordAt(b, 0) < 0x8000_0000 then WordAt(b, 0) else 0
  }

  function HeaderOf(b: Block): (lh: seq<Word>)
    requires HeaderCount(b) <= LOGSIZE
    ensures |lh| == HeaderCount(b)
    ensures forall i :: 0 <= i < |lh| ==> lh[i] == WordAt(b, i + 1)
  {
    seq(HeaderCount(b), i requires 0 <= i < HeaderCount(b) => WordAt(b, i + 1))
  }

  /** The first k entries of lh written after the count. */
  function PutSectors(b: Block, lh: seq<Word>, k: nat): Block
    requires k <= |lh| <= LOGSIZE
  {
    if k == 0 then SetWord(b, 0, |lh|) else SetWord(PutSectors(b, lh, k - 1), k, lh[k - 1])
  }

  function EncodeHeader(b: Block, lh: seq<Word>): Block
    requires |lh| <= LOGSIZE
  {
    PutSectors(b, lh, |lh|)
  }

  lemma {:induction false} PutSectorsWords(b: Block, lh: seq<Word>, k: nat)
    requires k <= |lh| <= LOGSIZE
    ensures WordAt(PutSectors(b, lh, k), 0) == |lh|
    ensures forall i :: 0 <= i < k ==> WordAt(PutSectors(b, lh, k), i + 1) == lh[i]
    ensures forall j :: k < j < BSIZE / 4 ==> WordAt(PutSectors(b, lh, k), j) == WordAt(b, j)
  {
    if k > 0 { PutSectorsWords(b, lh, k - 1); }
  }

  /** read_head undoes write_head, whatever the header sector held before. */
  lemma HeaderRoundTrip(b: Block, lh: seq<Word>)
    requires |lh| <= LOGSIZE
    ensures HeaderCount(EncodeHeader(b, lh)) == |lh|
    ensures HeaderOf(EncodeHeader(b, lh)) == lh
  {
    PutSectorsWords(b, lh, |lh|);
  }

  // ----- states

  datatype Buf = Buf(data: Block, dirty: bool)

  /** A B_BUSY buffer: who holds it, whether its data was changed since the
      last log_write, and whether the unlocked size test of log_write passed. */
  datatype Hold = Hold(owner: OpId, unlogged: bool, checked: bool)

  datatype Pc =
    | Boot
    | Running
    | WriteLog(tail: nat)
    | Install(tail: nat, recovering: bool)
    | Clear(recovering: bool)
    | Finish

  /** `ops` maps every outstanding operation to the number of sectors it has
      newly entered into the log. */
  datatype State = State(
    disk: seq<Block>, cache: map<nat, Buf>, held: map<nat, Hold>,
    lh: seq<Word>, ops: map<OpId, nat>, pc: Pc)

  datatype Step =
    | BeginOp(op: OpId)
    | Fetch(sector: nat)
    | Evict(sector: nat)
    | Acquire(who: OpId, sector: nat)
    | Modify(who: OpId, sector: nat, data: Block)
    | CheckSize(who: OpId, sector: nat)
    | LogWrite(who: OpId, sector: nat)
    | Release(who: OpId, sector: nat)
    | EndOp(op: OpId)
    | WriteLogBlock
    | WriteHead
    | InstallBlock
    | InstallDone
    | ClearHead
    | FinishCommit
    | Crash
    | ReadHead

  predicate HeldBy(s: State, who: OpId, k: nat) {
    k in s.held && s.held[k].owner == who
  }

  predicate IdleCached(s: State, k: nat) {
    k in s.cache && k !in s.held
  }

  /** The panic guard at the top of log_write. */
  predicate SizeGuardPasses(l: Layout, s: State) {
    |s.lh| < LOGSIZE && |s.lh| < l.size - 1
  }

  /** The unused part of a reservation. */
  function Left(used: nat): nat {
    if used < MAXOPBLOCKS then MAXOPBLOCKS - used else 0
  }

  /** The unused part of the reservations of the operations in progress. */
  ghost function Unused(ops: map<OpId, nat>): nat {
    if ops == map[] then 0
    else var op :| op in ops; Left(ops[op]) + Unused(ops - {op})
  }

  /** The operation has reservation left, or there is room in the header that no
      reservation claims. */
  ghost predicate MayLog(s: State, who: OpId) {
    who in s.ops && (s.ops[who] < MAXOPBLOCKS || |s.lh| + Unused(s.ops) < LOGSIZE)
  }

  /** The other way log_write can go: the test of the size was passed, but by now
      the log has no block left for the sector, and write_log will write past
      the end of the log.  A run ends where this happens. */
  ghost predicate Overruns(l: Layout, s: State, who: OpId, k: nat) {
    && MayLog(s, who) && HeldBy(s, who, k) && s.held[k].checked && !l.InLog(k) && k < WORD_LIMIT
    && k in s.cache && k !in s.lh && |s.lh| + 1 >= l.size
  }

  ghost predicate Enabled(l: Layout, s: State, step: Step) {
    match step
    case BeginOp(op) =>
      s.pc.Running? && op !in s.ops && |s.lh| + (|s.ops| + 1) * MAXOPBLOCKS <= LOGSIZE
    case Fetch(k) => k < |s.disk| && k !in s.cache
    case Evict(k) => IdleCached(s, k) && !s.cache[k].dirty
    case Acquire(who, k) => IdleCached(s, k)
    case Modify(who, k, data) => who in s.ops && HeldBy(s, who, k) && k in s.cache && !l.InLog(k)
    case CheckSize(who, k) => who in s.ops && HeldBy(s, who, k) && !l.InLog(k) && SizeGuardPasses(l, s)
    case LogWrite(who, k) =>
      && who in s.ops && HeldBy(s, who, k) && s.held[k].checked && !l.InLog(k) && k < WORD_LIMIT
      && k in s.cache && (k !in s.lh ==> MayLog(s, who) && |s.lh| + 1 < l.size)
    case Release(who, k) => HeldBy(s, who, k) && !s.held[k].unlogged
    case EndOp(op) => op in s.ops && forall k :: k in s.held ==> s.held[k].owner != op
    case WriteLogBlock =>
      && s.pc.WriteLog? && s.pc.tail < |s.lh|
      && IdleCached(s, s.lh[s.pc.tail]) && IdleCached(s, l.start + 1 + s.pc.tail)
    case WriteHead =>
      s.pc.WriteLog? && s.pc.tail == |s.lh| <= LOGSIZE && IdleCached(s, l.start)
    case InstallBlock =>
      && s.pc.Install? && s.pc.tail < |s.lh|
      && IdleCached(s, s.lh[s.pc.tail]) && IdleCached(s, l.start + 1 + s.pc.tail)
    case InstallDone => s.pc.Install? && s.pc.tail == |s.lh|
    case ClearHead => s.pc.Clear? && s.lh == [] && IdleCached(s, l.start)
    case FinishCommit => s.pc.Finish?
    case Crash => true
    case ReadHead =>
      s.pc.Boot? && IdleCached(s, l.start) && HeaderCount(s.cache[l.start].data) <= LOGSIZE
  }

  /** bwrite: the buffer and the sector now agree and B_DIRTY is clear. */
  function Written(s: State, k: nat, data: Block, pc: Pc): State
    requires k < |s.disk|
  {
    s.(cache := s.cache[k := Buf(data, false)], disk := s.disk[k := data], pc := pc)
  }

  /** Sectors a step's reads and writes must lie on. */
  predicate InRange(l: Layout, s: State) {
    l.start + l.size <= |s.disk| && |s.lh| < l.size && forall i :: 0 <= i < |s.lh| ==> s.lh[i] < |s.disk|
  }

  ghost function Apply(l: Layout, s: State, step: Step): State
    requires Enabled(l, s, step) && InRange(l, s)
  {
    match step
    case BeginOp(op) => s.(ops := s.ops[op := 0])
    case Fetch(k) => s.(cache := s.cache[k := Buf(s.disk[k], false)])
    case Evict(k) => s.(cache := s.cache - {k})
    case Acquire(who, k) => s.(held := s.held[k := Hold(who, false, false)])
    case Modify(who, k, data) =>
      s.(cache := s.cache[k := s.cache[k].(data := data)], held := s.held[k := s.held[k].(unlogged := true)])
    case CheckSize(who, k) => s.(held := s.held[k := s.held[k].(checked := true)])
    case LogWrite(who, k) =>
      s.(cache := s.cache[k := s.cache[k].(dirty := true)],
         held := s.held[k := Hold(who, false, false)],
         lh := if k in s.lh then s.lh else s.lh + [k],
         ops := if k in s.lh then s.ops else s.ops[who := s.ops[who] + 1])
    case Release(who, k) => s.(held := s.held - {k})
    case EndOp(op) =>
      var ops := s.ops - {op};
      s.(ops := ops, pc := if ops != map[] then s.pc else if s.lh == [] then Finish else WriteLog(0))
    case WriteLogBlock =>
      Written(s, l.start + 1 + s.pc.tail, s.cache[s.lh[s.pc.tail]].data, WriteLog(s.pc.tail + 1))
    case WriteHead =>
      Written(s, l.start, EncodeHeader(s.cache[l.start].data, s.lh), Install(0, false))
    case InstallBlock =>
      Written(s, s.lh[s.pc.tail], s.cache[l.start + 1 + s.pc.tail].data, Install(s.pc.tail + 1, s.pc.recovering))
    case InstallDone => s.(lh := [], pc := Clear(s.pc.recovering))
    case ClearHead =>
      Written(s, l.start, EncodeHeader(s.cache[l.start].data, []), if s.pc.recovering then Running else Finish)
    case FinishCommit => s.(pc := Running)
    case Crash => Booted(s.disk)
    case ReadHead => s.(lh := HeaderOf(s.cache[l.start].data), pc := Install(0, true))
  }

  /** s' is what the step makes of s. */
  ghost predicate Follows(l: Layout, s: State, step: Step, s': State) {
    InRange(l, s) && Enabled(l, s, step) && s' == Apply(l, s, step)
  }

  /** Memory right after a power-up: nothing cached, recovery still to run. */
  function Booted(disk: seq<Block>): State {
    State(disk, map[], map[], [], map[], Boot)
  }

  // ----- what a disk recovers to

  ghost predicate Distinct(h: seq<Word>) {
    forall i, j :: 0 <= i < j < |h| ==> h[i] != h[j]
  }

  /** A header recovery may act on: it fits the log and names distinct home sectors. */
  ghost predicate GoodHeader(l: Layout, sectors: nat, h: seq<Word>) {
    && |h| <= LOGSIZE && |h| < l.size && Distinct(h)
    && forall i :: 0 <= i < |h| ==> h[i] < sectors && !l.InLog(h[i])
  }

  ghost predicate GoodDisk(l: Layout, d: seq<Block>) {
    && 0 < l.size && l.start + l.size <= |d|
    && HeaderCount(d[l.start]) <= LOGSIZE && GoodHeader(l, |d|, HeaderOf(d[l.start]))
  }

  predicate NamedAt(h: seq<Word>, i: nat, k: nat) {
    i < |h| && h[i] == k
  }

  /** The content recovery leaves in sector k: its copy in the log when the
      on-disk header names it, what is already there otherwise. */
  ghost function RecoveredAt(l: Layout, d: seq<Block>, k: nat): Block
    requires GoodDisk(l, d) && k < |d|
  {
    var h := HeaderOf(d[l.start]);
    if i: nat :| NamedAt(h, i, k) then d[l.start + 1 + i] else d[k]
  }

  ghost function Recovered(l: Layout, d: seq<Block>): (r: seq<Block>)
    requires GoodDisk(l, d)
    ensures |r| == |d|
  {
    seq(|d|, k requires 0 <= k < |d| => RecoveredAt(l, d, k))
  }

  ghost function ViewAt(s: State, k: nat): Block
    requires k < |s.disk|
  {
    if k in s.cache then s.cache[k].data else s.disk[k]
  }

  /** What the running file system sees: cached data over disk data. */
  ghost function View(s: State): (r: seq<Block>)
    ensures |r| == |s.disk|
  {
    seq(|s.disk|, k requires 0 <= k < |s.disk| => ViewAt(s, k))
  }

  ghost predicate SameHome(l: Layout, a: seq<Block>, b: seq<Block>) {
    |a| == |b| && forall k :: 0 <= k < |a| && !l.InLog(k) ==> a[k] == b[k]
  }

  /** The logical file system of a state: after a crash, what recovery will restore. */
  ghost function Logical(l: Layout, s: State): seq<Block>
    requires GoodDisk(l, s.disk)
  {
    if s.pc.Boot? || (s.pc.Install? && s.pc.recovering) then Recovered(l, s.disk) else View(s)
  }

  // ----- the invariant

  ghost predicate ReservationOk(s: State) {
    |s.lh| + Unused(s.ops) <= LOGSIZE
  }

  predicate Unlogged(s: State, k: nat) {
    k in s.held && s.held[k].unlogged
  }

  ghost predicate CacheOk(l: Layout, s: State) {
    && (forall k :: k in s.held ==> k in s.cache)
    && (forall k :: k in s.cache ==> k < |s.disk|)
    && (forall k :: k in s.cache && !s.cache[k].dirty && !Unlogged(s, k) ==> s.cache[k].data == s.disk[k])
    && (forall k :: k in s.cache && s.cache[k].dirty ==> k in s.lh)
    && (forall k :: Unlogged(s, k) ==> !l.InLog(k) && s.held[k].owner in s.ops)
  }

  /** Every logged sector from position t on is pinned in the cache. */
  ghost predicate PinnedFrom(s: State, t: nat) {
    forall i :: t <= i < |s.lh| ==> s.lh[i] in s.cache && s.cache[s.lh[i]].dirty
  }

  /** The first t log blocks hold what the cache holds for their sectors. */
  ghost predicate LogCopied(l: Layout, s: State, t: nat)
    requires InRange(l, s)
  {
    forall i :: 0 <= i < t && i < |s.lh| ==> s.disk[l.start + 1 + i] == ViewAt(s, s.lh[i])
  }

  /** The first t logged sectors are installed and no longer pinned. */
  ghost predicate InstalledTo(l: Layout, s: State, t: nat)
    requires InRange(l, s)
  {
    && (forall i :: 0 <= i < t && i < |s.lh| ==> s.disk[s.lh[i]] == s.disk[l.start + 1 + i])
    && (forall i :: 0 <= i < t && i < |s.lh| ==> s.lh[i] in s.cache ==> !s.cache[s.lh[i]].dirty)
  }

  ghost predicate HomesInstalled(l: Layout, d: seq<Block>)
    requires GoodDisk(l, d)
  {
    var h := HeaderOf(d[l.start]);
    forall i :: 0 <= i < |h| ==> d[h[i]] == d[l.start + 1 + i]
  }

  ghost predicate PcOk(l: Layout, s: State)
    requires GoodDisk(l, s.disk) && InRange(l, s)
  {
    var h := HeaderOf(s.disk[l.start]);
    match s.pc
    case Boot => s.lh == [] && s.ops == map[]
    case Running => h == [] && PinnedFrom(s, 0) && (s.ops == map[] ==> s.lh == [])
    case WriteLog(t) =>
      h == [] && s.ops == map[] && t <= |s.lh| && s.lh != [] && PinnedFrom(s, 0) && LogCopied(l, s, t)
    case Install(t, recovering) =>
      && h == s.lh && s.ops == map[] && t <= |s.lh| && InstalledTo(l, s, t)
      && (recovering ==> forall k :: k in s.cache ==> !s.cache[k].dirty)
      && (!recovering ==> PinnedFrom(s, t) && LogCopied(l, s, |s.lh|))
    case Clear(_) => s.lh == [] && s.ops == map[] && HomesInstalled(l, s.disk)
    case Finish => h == [] && s.lh == [] && s.ops == map[]
  }

  ghost predicate Inv(l: Layout, s: State) {
    && GoodDisk(l, s.disk) && GoodHeader(l, |s.disk|, s.lh) && InRange(l, s)
    && CacheOk(l, s) && ReservationOk(s) && PcOk(l, s)
  }

  // ----- reservations

  lemma {:induction false} UnusedRemove(ops: map<OpId, nat>, op: OpId)
    requires op in ops
    ensures Unused(ops) == Left(ops[op]) + Unused(ops - {op})
    decreases |ops|
  {
    var first :| first in ops && Unused(ops) == Left(ops[first]) + Unused(ops - {first});
    if first != op {
      UnusedRemove(ops - {first}, op);
      UnusedRemove(ops - {op}, first);
      assert ops - {first} - {op} == ops - {op} - {first};
    }
  }

  lemma UnusedUpdate(ops: map<OpId, nat>, op: OpId, used: nat)
    ensures Unused(ops[op := used]) == Left(used) + Unused(ops - {op})
  {
    UnusedRemove(ops[op := used], op);
    assert ops[op := used] - {op} == ops - {op};
  }

  lemma {:induction false} UnusedBounds(ops: map<OpId, nat>)
    ensures Unused(ops) <= MAXOPBLOCKS * |ops|
    decreases |ops|
  {
    if ops != map[] {
      var op :| op in ops;
      UnusedRemove(ops, op);
      UnusedBounds(ops - {op});
    }
  }

  lemma ReservationKept(l: Layout, s: State, step: Step)
    requires InRange(l, s) && Enabled(l, s, step) && ReservationOk(s)
    requires step.ReadHead? ==> s.ops == map[]
    ensures ReservationOk(Apply(l, s, step))
  {
    match step
    case BeginOp(op) =>
      UnusedUpdate(s.ops, op, 0);
      assert s.ops - {op} == s.ops;
      UnusedBounds(s.ops);
    case LogWrite(who, k) =>
      UnusedRemove(s.ops, who);
      UnusedUpdate(s.ops, who, s.ops[who] + 1);
    case EndOp(op) => UnusedRemove(s.ops, op);
    case InstallDone => UnusedBounds(s.ops);
    case _ =>
  }

  // ----- every step keeps the invariant

  /** Nothing the commit depends on changed: only clean buffers came or went. */
  ghost predicate SameCommitState(s: State, s': State) {
    && s'.disk == s.disk && s'.lh == s.lh && s'.ops == s.ops && s'.pc == s.pc
    && (forall k :: k in s.cache && s.cache[k].dirty ==> k in s'.cache && s'.cache[k] == s.cache[k])
    && (forall k :: k in s'.cache && s'.cache[k].dirty ==> k in s.cache && s'.cache[k] == s.cache[k])
    && (forall k :: 0 <= k < |s.disk| ==> ViewAt(s', k) == ViewAt(s, k))
  }

  lemma FramePcOk(l: Layout, s: State, s': State)
    requires GoodDisk(l, s.disk) && InRange(l, s) && PcOk(l, s) && SameCommitState(s, s')
    ensures InRange(l, s') && PcOk(l, s')
  {
  }

  lemma FrameInv(l: Layout, s: State, s': State)
    requires Inv(l, s) && SameCommitState(s, s') && CacheOk(l, s')
    ensures Inv(l, s')
  {
    hide GoodDisk, GoodHeader, CacheOk, PcOk;
    FramePcOk(l, s, s');
  }

  lemma BufferStepKeepsInv(l: Layout, s: State, step: Step)
    requires Inv(l, s) && Enabled(l, s, step)
    requires step.Fetch? || step.Evict? || step.Acquire? || step.Release? || step.CheckSize?
    ensures Inv(l, Apply(l, s, step))
  {
    hide GoodDisk, GoodHeader, CacheOk, PcOk, ReservationOk, SameCommitState;
    match step {
      case Fetch(k) => FetchKeepsCache(l, s, k);
      case Evict(k) => EvictKeepsCache(l, s, k);
      case Acquire(who, k) => HoldKeepsCache(l, s, s.held[k := Hold(who, false, false)]);
      case Release(who, k) => HoldKeepsCache(l, s, s.held - {k});
      case CheckSize(who, k) => HoldKeepsCache(l, s, s.held[k := s.held[k].(checked := true)]);
    }
    FrameInv(l, s, Apply(l, s, step));
  }

  lemma FetchKeepsCache(l: Layout, s: State, k: nat)
    requires CacheOk(l, s) && k < |s.disk| && k !in s.cache
    ensures var s' := s.(cache := s.cache[k := Buf(s.disk[k], false)]);
            CacheOk(l, s') && SameCommitState(s, s')
  {
  }

  lemma EvictKeepsCache(l: Layout, s: State, k: nat)
    requires CacheOk(l, s) && IdleCached(s, k) && !s.cache[k].dirty
    ensures var s' := s.(cache := s.cache - {k});
            CacheOk(l, s') && SameCommitState(s, s')
  {
  }

  lemma HoldKeepsCache(l: Layout, s: State, held: map<nat, Hold>)
    requires CacheOk(l, s) && forall k :: k in held ==> k in s.held || k in s.cache
    requires forall k :: Unlogged(s.(held := held), k) <==> Unlogged(s, k)
    requires forall k :: Unlogged(s, k) ==> k in held && held[k].owner == s.held[k].owner
    ensures var s' := s.(held := held);
            CacheOk(l, s') && SameCommitState(s, s')
  {
  }

  lemma WrittenKeepsCache(l: Layout, s: State, k: nat, data: Block, pc: Pc)
    requires CacheOk(l, s) && k < |s.disk| && IdleCached(s, k)
    ensures CacheOk(l, Written(s, k, data, pc))
  {
  }

  lemma BeginOpKeepsInv(l: Layout, s: State, op: OpId)
    requires Inv(l, s) && Enabled(l, s, BeginOp(op))
    ensures Inv(l, Apply(l, s, BeginOp(op)))
  {
    ReservationKept(l, s, BeginOp(op));
  }

  lemma ModifyKeepsCache(l: Layout, s: State, who: OpId, k: nat, data: Block)
    requires InRange(l, s) && CacheOk(l, s) && Enabled(l, s, Modify(who, k, data))
    ensures CacheOk(l, Apply(l, s, Modify(who, k, data)))
  {
  }

  lemma ModifyKeepsInv(l: Layout, s: State, who: OpId, k: nat, data: Block)
    requires Inv(l, s) && Enabled(l, s, Modify(who, k, data))
    ensures Inv(l, Apply(l, s, Modify(who, k, data)))
  {
    hide GoodDisk, GoodHeader, CacheOk;
    ModifyKeepsCache(l, s, who, k, data);
  }

  lemma LogWriteKeepsCache(l: Layout, s: State, who: OpId, k: nat)
    requires InRange(l, s) && CacheOk(l, s) && Enabled(l, s, LogWrite(who, k))
    ensures CacheOk(l, Apply(l, s, LogWrite(who, k)))
  {
  }

  /** A logged sector is appended only when it is not already there. */
  lemma LogWriteKeepsHeader(l: Layout, s: State, who: OpId, k: nat)
    requires InRange(l, s) && CacheOk(l, s) && Enabled(l, s, LogWrite(who, k))
    requires GoodHeader(l, |s.disk|, s.lh) && ReservationOk(s)
    ensures var s' := Apply(l, s, LogWrite(who, k)); GoodHeader(l, |s'.disk|, s'.lh)
  {
    ReservationKept(l, s, LogWrite(who, k));
    UnusedBounds(Apply(l, s, LogWrite(who, k)).ops);
  }

  lemma LogWriteKeepsInv(l: Layout, s: State, who: OpId, k: nat)
    requires Inv(l, s) && Enabled(l, s, LogWrite(who, k))
    ensures Inv(l, Apply(l, s, LogWrite(who, k)))
  {
    hide CacheOk, ReservationOk;
    LogWriteKeepsCache(l, s, who, k);
    LogWriteKeepsHeader(l, s, who, k);
    ReservationKept(l, s, LogWrite(who, k));
  }

  lemma EndOpKeepsInv(l: Layout, s: State, op: OpId)
    requires Inv(l, s) && Enabled(l, s, EndOp(op))
    ensures Inv(l, Apply(l, s, EndOp(op)))
  {
    ReservationKept(l, s, EndOp(op));
  }

  lemma InstallDoneKeepsInv(l: Layout, s: State)
    requires Inv(l, s) && Enabled(l, s, InstallDone)
    ensures Inv(l, Apply(l, s, InstallDone))
  {
    ReservationKept(l, s, InstallDone);
  }

  lemma FinishCommitKeepsInv(l: Layout, s: State)
    requires Inv(l, s) && Enabled(l, s, FinishCommit)
    ensures Inv(l, Apply(l, s, FinishCommit))
  {
  }

  lemma CrashKeepsInv(l: Layout, s: State)
    requires Inv(l, s) && Enabled(l, s, Crash)
    ensures Inv(l, Apply(l, s, Crash))
  {
    ReservationKept(l, s, Crash);
  }

  lemma ReadHeadKeepsInv(l: Layout, s: State)
    requires Inv(l, s) && Enabled(l, s, ReadHead)
    ensures Inv(l, Apply(l, s, ReadHead))
  {
    ReservationKept(l, s, ReadHead);
  }

  lemma WrittenKeepsInv(l: Layout, s: State, k: nat, data: Block, pc: Pc)
    requires Inv(l, s) && k < |s.disk| && IdleCached(s, k)
    requires var s' := Written(s, k, data, pc); GoodDisk(l, s'.disk) && InRange(l, s') && PcOk(l, s')
    ensures Inv(l, Written(s, k, data, pc))
  {
    hide GoodDisk, GoodHeader, CacheOk, PcOk;
    WrittenKeepsCache(l, s, k, data, pc);
  }

  lemma WrittenKeepsGoodDisk(l: Layout, s: State, k: nat, data: Block, pc: Pc)
    requires GoodDisk(l, s.disk) && k < |s.disk| && k != l.start
    ensures var s' := Written(s, k, data, pc);
            GoodDisk(l, s'.disk) && HeaderOf(s'.disk[l.start]) == HeaderOf(s.disk[l.start])
  {
  }

  /** Copying the t-th logged sector from the cache into the log. */
  lemma CopyToLog(l: Layout, s: State, t: nat)
    requires InRange(l, s) && GoodHeader(l, |s.disk|, s.lh) && t < |s.lh| && s.lh[t] in s.cache
    requires PinnedFrom(s, 0) && LogCopied(l, s, t)
    ensures var s' := Written(s, l.start + 1 + t, s.cache[s.lh[t]].data, WriteLog(t + 1));
            InRange(l, s') && PinnedFrom(s', 0) && LogCopied(l, s', t + 1)
  {
    var to := l.start + 1 + t;
    assert l.InLog(to);
    assert forall i :: 0 <= i < |s.lh| ==> s.lh[i] != to;
  }

  lemma WriteLogBlockKeepsPc(l: Layout, s: State, t: nat)
    requires GoodDisk(l, s.disk) && InRange(l, s) && GoodHeader(l, |s.disk|, s.lh) && PcOk(l, s)
    requires s.pc == WriteLog(t) && t < |s.lh| && s.lh[t] in s.cache
    ensures var s' := Written(s, l.start + 1 + t, s.cache[s.lh[t]].data, WriteLog(t + 1));
            GoodDisk(l, s'.disk) && InRange(l, s') && PcOk(l, s')
  {
    CopyToLog(l, s, t);
    WrittenKeepsGoodDisk(l, s, l.start + 1 + t, s.cache[s.lh[t]].data, WriteLog(t + 1));
  }

  lemma WriteLogBlockKeepsInv(l: Layout, s: State)
    requires Inv(l, s) && Enabled(l, s, WriteLogBlock)
    ensures Inv(l, Apply(l, s, WriteLogBlock))
  {
    hide GoodDisk, GoodHeader, CacheOk, PcOk, ReservationOk;
    var t := s.pc.tail;
    WriteLogBlockKeepsPc(l, s, t);
    WrittenKeepsInv(l, s, l.start + 1 + t, s.cache[s.lh[t]].data, WriteLog(t + 1));
  }

  /** After the header write the on-disk header names the logged sectors. */
  lemma HeaderWritten(l: Layout, s: State, lh: seq<Word>, pc: Pc)
    requires GoodDisk(l, s.disk) && GoodHeader(l, |s.disk|, lh) && l.start in s.cache
    ensures var s' := Written(s, l.start, EncodeHeader(s.cache[l.start].data, lh), pc);
            GoodDisk(l, s'.disk) && HeaderOf(s'.disk[l.start]) == lh
  {
    HeaderRoundTrip(s.cache[l.start].data, lh);
  }

  lemma CommitHeader(l: Layout, s: State, b: Block)
    requires InRange(l, s) && GoodHeader(l, |s.disk|, s.lh)
    requires PinnedFrom(s, 0) && LogCopied(l, s, |s.lh|)
    ensures var s' := Written(s, l.start, b, Install(0, false));
            InRange(l, s') && PinnedFrom(s', 0) && LogCopied(l, s', |s.lh|)
  {
    assert l.InLog(l.start);
    assert forall i :: 0 <= i < |s.lh| ==> s.lh[i] != l.start;
  }

  lemma WriteHeadKeepsInv(l: Layout, s: State)
    requires Inv(l, s) && Enabled(l, s, WriteHead)
    ensures Inv(l, Apply(l, s, WriteHead))
  {
    hide GoodDisk, GoodHeader, CacheOk, ReservationOk;
    var b := EncodeHeader(s.cache[l.start].data, s.lh);
    HeaderWritten(l, s, s.lh, Install(0, false));
    CommitHeader(l, s, b);
    WrittenKeepsInv(l, s, l.start, b, Install(0, false));
  }

  lemma InstallNext(l: Layout, s: State, t: nat, pc: Pc)
    requires InRange(l, s) && GoodHeader(l, |s.disk|, s.lh) && t < |s.lh| && InstalledTo(l, s, t)
    ensures var s' := Written(s, s.lh[t], s.disk[l.start + 1 + t], pc);
            InRange(l, s') && InstalledTo(l, s', t + 1)
  {
    var s' := Written(s, s.lh[t], s.disk[l.start + 1 + t], pc);
    forall i | 0 <= i < |s.lh|
      ensures s'.disk[l.start + 1 + i] == s.disk[l.start + 1 + i]
      ensures i != t ==> s.lh[i] != s.lh[t]
    {
      assert l.InLog(l.start + 1 + i);
    }
  }

  /** Installing a block that was copied from the cache changes no reader's view. */
  lemma InstallKeepsView(l: Layout, s: State, t: nat, pc: Pc)
    requires InRange(l, s) && GoodHeader(l, |s.disk|, s.lh) && t < |s.lh|
    requires PinnedFrom(s, t) && LogCopied(l, s, |s.lh|)
    ensures var s' := Written(s, s.lh[t], s.disk[l.start + 1 + t], pc);
            InRange(l, s') && PinnedFrom(s', t + 1) && LogCopied(l, s', |s.lh|) && View(s') == View(s)
  {
    var s' := Written(s, s.lh[t], s.disk[l.start + 1 + t], pc);
    assert s.disk[l.start + 1 + t] == ViewAt(s, s.lh[t]);
    assert forall k :: 0 <= k < |s.disk| ==> ViewAt(s', k) == ViewAt(s, k);
    forall i | 0 <= i < |s.lh|
      ensures s'.disk[l.start + 1 + i] == s.disk[l.start + 1 + i] && (i != t ==> s.lh[i] != s.lh[t])
    {
      assert l.InLog(l.start + 1 + i);
    }
  }

  /** Log buffers are never modified in place, so the cached copy is the one on disk. */
  lemma LogBufferClean(l: Layout, s: State, k: nat)
    requires CacheOk(l, s) && GoodHeader(l, |s.disk|, s.lh) && l.InLog(k) && k in s.cache
    ensures k < |s.disk| && s.cache[k].data == s.disk[k]
  {
    assert k !in s.lh;
  }

  lemma LoggedIsHome(l: Layout, s: State, t: nat)
    requires GoodHeader(l, |s.disk|, s.lh) && t < |s.lh|
    ensures !l.InLog(s.lh[t]) && l.InLog(l.start) && l.InLog(l.start + 1 + t)
  {
  }

  lemma InstallBlockKeepsPc(l: Layout, s: State, pc: Pc)
    requires GoodDisk(l, s.disk) && InRange(l, s) && GoodHeader(l, |s.disk|, s.lh) && PcOk(l, s)
    requires s.pc.Install? && s.pc.tail < |s.lh| && s.lh[s.pc.tail] != l.start
    requires pc == Install(s.pc.tail + 1, s.pc.recovering)
    ensures var s' := Written(s, s.lh[s.pc.tail], s.disk[l.start + 1 + s.pc.tail], pc);
            GoodDisk(l, s'.disk) && InRange(l, s') && PcOk(l, s')
  {
    var t := s.pc.tail;
    WrittenKeepsGoodDisk(l, s, s.lh[t], s.disk[l.start + 1 + t], pc);
    InstallNext(l, s, t, pc);
    if !s.pc.recovering { InstallKeepsView(l, s, t, pc); }
  }

  lemma InstallBlockKeepsInv(l: Layout, s: State)
    requires Inv(l, s) && Enabled(l, s, InstallBlock)
    ensures Inv(l, Apply(l, s, InstallBlock))
  {
    hide GoodDisk, GoodHeader, CacheOk, PcOk, ReservationOk;
    var t, pc := s.pc.tail, Install(s.pc.tail + 1, s.pc.recovering);
    LoggedIsHome(l, s, t);
    LogBufferClean(l, s, l.start + 1 + t);
    InstallBlockKeepsPc(l, s, pc);
    WrittenKeepsInv(l, s, s.lh[t], s.disk[l.start + 1 + t], pc);
  }

  lemma ClearHeadKeepsInv(l: Layout, s: State)
    requires Inv(l, s) && Enabled(l, s, ClearHead)
    ensures Inv(l, Apply(l, s, ClearHead))
  {
    hide GoodDisk, CacheOk, ReservationOk;
    var pc := if s.pc.recovering then Running else Finish;
    HeaderWritten(l, s, [], pc);
    WrittenKeepsInv(l, s, l.start, EncodeHeader(s.cache[l.start].data, []), pc);
  }

  /** Every step of every thread keeps the invariant, reservations included. */
  lemma StepKeepsInv(l: Layout, s: State, step: Step)
    requires Inv(l, s) && Enabled(l, s, step)
    ensures Inv(l, Apply(l, s, step))
  {
    hide Inv;
    match step
    case BeginOp(op) => BeginOpKeepsInv(l, s, op);
    case Fetch(_) => BufferStepKeepsInv(l, s, step);
    case Evict(_) => BufferStepKeepsInv(l, s, step);
    case Acquire(_, _) => BufferStepKeepsInv(l, s, step);
    case Release(_, _) => BufferStepKeepsInv(l, s, step);
    case CheckSize(_, _) => BufferStepKeepsInv(l, s, step);
    case Modify(who, k, data) => ModifyKeepsInv(l, s, who, k, data);
    case LogWrite(who, k) => LogWriteKeepsInv(l, s, who, k);
    case EndOp(op) => EndOpKeepsInv(l, s, op);
    case WriteLogBlock => WriteLogBlockKeepsInv(l, s);
    case WriteHead => WriteHeadKeepsInv(l, s);
    case InstallBlock => InstallBlockKeepsInv(l, s);
    case InstallDone => InstallDoneKeepsInv(l, s);
    case ClearHead => ClearHeadKeepsInv(l, s);
    case FinishCommit => FinishCommitKeepsInv(l, s);
    case Crash => CrashKeepsInv(l, s);
    case ReadHead => ReadHeadKeepsInv(l, s);
  }

  // ----- what each step does to the recoverable state

  lemma RecoveredNamed(l: Layout, d: seq<Block>, i: nat)
    requires GoodDisk(l, d) && i < HeaderCount(d[l.start])
    ensures RecoveredAt(l, d, HeaderOf(d[l.start])[i]) == d[l.start + 1 + i]
  {
    var h := HeaderOf(d[l.start]);
    assert NamedAt(h, i, h[i]);
    assert forall j: nat :: NamedAt(h, j, h[i]) ==> j == i;
  }

  lemma RecoveredUnnamed(l: Layout, d: seq<Block>, k: nat)
    requires GoodDisk(l, d) && k < |d| && k !in HeaderOf(d[l.start])
    ensures RecoveredAt(l, d, k) == d[k]
  {
    assert forall j: nat :: !NamedAt(HeaderOf(d[l.start]), j, k);
  }

  /** Writing a log block of an uncommitted transaction leaves recovery alone. */
  lemma LogWriteIsInvisible(l: Layout, d: seq<Block>, k: nat, b: Block)
    requires GoodDisk(l, d) && HeaderOf(d[l.start]) == [] && l.start < k < |d| && l.InLog(k)
    ensures GoodDisk(l, d[k := b]) && SameHome(l, Recovered(l, d[k := b]), Recovered(l, d))
  {
    var d' := d[k := b];
    forall x | 0 <= x < |d| && !l.InLog(x) ensures RecoveredAt(l, d', x) == RecoveredAt(l, d, x) {
      RecoveredUnnamed(l, d, x);
      RecoveredUnnamed(l, d', x);
    }
  }

  /** Redoing an installation step leaves recovery alone. */
  lemma InstallIsInvisible(l: Layout, d: seq<Block>, t: nat)
    requires GoodDisk(l, d) && t < HeaderCount(d[l.start])
    ensures var d' := d[HeaderOf(d[l.start])[t] := d[l.start + 1 + t]];
            GoodDisk(l, d') && SameHome(l, Recovered(l, d'), Recovered(l, d))
  {
    var h := HeaderOf(d[l.start]);
    var d' := d[h[t] := d[l.start + 1 + t]];
    assert !l.InLog(h[t]) && l.InLog(l.start);
    assert d'[l.start] == d[l.start];
    forall x | 0 <= x < |d| && !l.InLog(x) ensures RecoveredAt(l, d', x) == RecoveredAt(l, d, x) {
      if x in h {
        var i :| 0 <= i < |h| && h[i] == x;
        assert l.InLog(l.start + 1 + i);
        RecoveredNamed(l, d, i);
        RecoveredNamed(l, d', i);
      } else {
        RecoveredUnnamed(l, d, x);
        RecoveredUnnamed(l, d', x);
      }
    }
  }

  /** Erasing the header after everything is installed leaves recovery alone. */
  lemma ClearIsInvisible(l: Layout, d: seq<Block>, b: Block)
    requires GoodDisk(l, d) && HomesInstalled(l, d) && HeaderCount(b) == 0
    ensures GoodDisk(l, d[l.start := b]) && SameHome(l, Recovered(l, d[l.start := b]), Recovered(l, d))
  {
    var d', h := d[l.start := b], HeaderOf(d[l.start]);
    assert HeaderOf(d'[l.start]) == [];
    forall x | 0 <= x < |d| && !l.InLog(x) ensures RecoveredAt(l, d', x) == RecoveredAt(l, d, x) {
      assert l.InLog(l.start);
      RecoveredUnnamed(l, d', x);
      if x in h {
        var i :| 0 <= i < |h| && h[i] == x;
        RecoveredNamed(l, d, i);
      } else {
        RecoveredUnnamed(l, d, x);
      }
    }
  }

  /** With no operation outstanding, a sector the log does not name is the same
      in the cache and on disk. */
  lemma UnloggedIsClean(l: Layout, s: State, k: nat)
    requires CacheOk(l, s) && s.ops == map[] && k < |s.disk| && k !in s.lh
    ensures ViewAt(s, k) == s.disk[k]
  {
  }

  /** The header write is the commit: from then on recovery yields the whole
      view the operations had built. */
  lemma CommitPoint(l: Layout, s: State)
    requires Inv(l, s) && s.pc == Install(0, false)
    ensures SameHome(l, Recovered(l, s.disk), View(s))
  {
    hide ReservationOk, CacheOk, RecoveredAt;
    forall x | 0 <= x < |s.disk| && !l.InLog(x) ensures RecoveredAt(l, s.disk, x) == ViewAt(s, x) {
      if x in s.lh {
        var i :| 0 <= i < |s.lh| && s.lh[i] == x;
        RecoveredNamed(l, s.disk, i);
      } else {
        RecoveredUnnamed(l, s.disk, x);
        UnloggedIsClean(l, s, x);
      }
    }
  }

  /** No operation in progress and no commit under way, or nothing run yet. */
  predicate Settled(s: State) {
    s.pc.Boot? || (s.pc.Running? && s.ops == map[])
  }

  lemma SettledIsDurable(l: Layout, s: State)
    requires Inv(l, s) && Settled(s)
    ensures s.ops == map[] && SameHome(l, Recovered(l, s.disk), Logical(l, s))
  {
    if !s.pc.Boot? {
      forall x | 0 <= x < |s.disk| && !l.InLog(x) ensures RecoveredAt(l, s.disk, x) == ViewAt(s, x) {
        RecoveredUnnamed(l, s.disk, x);
        UnloggedIsClean(l, s, x);
      }
    }
  }

  lemma RecoverableInstall(l: Layout, s: State)
    requires Inv(l, s) && Enabled(l, s, InstallBlock)
    ensures SameHome(l, Recovered(l, Apply(l, s, InstallBlock).disk), Recovered(l, s.disk))
  {
    hide CacheOk, ReservationOk, GoodHeader;
    LoggedIsHome(l, s, s.pc.tail);
    LogBufferClean(l, s, l.start + 1 + s.pc.tail);
    InstallIsInvisible(l, s.disk, s.pc.tail);
  }

  lemma RecoverableClear(l: Layout, s: State)
    requires Inv(l, s) && Enabled(l, s, ClearHead)
    ensures SameHome(l, Recovered(l, Apply(l, s, ClearHead).disk), Recovered(l, s.disk))
  {
    hide CacheOk, ReservationOk, GoodHeader;
    var b := EncodeHeader(s.cache[l.start].data, []);
    HeaderRoundTrip(s.cache[l.start].data, []);
    ClearIsInvisible(l, s.disk, b);
  }

  /** The only step that changes what a crash would recover is the header write
      of a commit, and then no operation is outstanding. */
  lemma RecoverableStep(l: Layout, s: State, step: Step)
    requires Inv(l, s) && Enabled(l, s, step)
    ensures var s' := Apply(l, s, step);
            && Inv(l, s')
            && if step.WriteHead?
               then s'.ops == map[] && SameHome(l, Recovered(l, s'.disk), Logical(l, s'))
               else SameHome(l, Recovered(l, s'.disk), Recovered(l, s.disk))
  {
    hide CacheOk, ReservationOk, GoodHeader, Recovered;
    var s' := Apply(l, s, step);
    StepKeepsInv(l, s, step);
    match step {
      case WriteHead => CommitPoint(l, s');
      case WriteLogBlock => LogWriteIsInvisible(l, s.disk, l.start + 1 + s.pc.tail, s.cache[s.lh[s.pc.tail]].data);
      case InstallBlock => RecoverableInstall(l, s);
      case ClearHead => RecoverableClear(l, s);
      case _ =>
    }
  }

  /** A home sector changes on disk only while a committed transaction is being
      installed, for a sector it names, with no operation outstanding. */
  lemma HomeWrittenOnlyByInstall(l: Layout, s: State, step: Step, k: nat)
    requires Inv(l, s) && Enabled(l, s, step) && k < |s.disk| && !l.InLog(k)
    ensures |Apply(l, s, step).disk| == |s.disk|
    ensures Apply(l, s, step).disk[k] != s.disk[k] ==>
              step.InstallBlock? && s.ops == map[] && k in HeaderOf(s.disk[l.start])
  {
    assert l.InLog(l.start);
    if step.WriteLogBlock? { assert l.InLog(l.start + 1 + s.pc.tail); }
  }

  lemma InstallViewStep(l: Layout, s: State)
    requires Inv(l, s) && Enabled(l, s, InstallBlock) && !s.pc.recovering
    ensures SameHome(l, View(Apply(l, s, InstallBlock)), View(s))
  {
    hide GoodDisk, GoodHeader, CacheOk, ReservationOk;
    LoggedIsHome(l, s, s.pc.tail);
    LogBufferClean(l, s, l.start + 1 + s.pc.tail);
    InstallKeepsView(l, s, s.pc.tail, Install(s.pc.tail + 1, false));
  }

  lemma LogSectorView(l: Layout, s: State, k: nat, data: Block, pc: Pc)
    requires k < |s.disk| && l.InLog(k)
    ensures SameHome(l, View(Written(s, k, data, pc)), View(s))
  {
    assert forall x :: 0 <= x < |s.disk| && !l.InLog(x) ==> ViewAt(Written(s, k, data, pc), x) == ViewAt(s, x);
  }

  lemma SameView(l: Layout, s: State, s': State)
    requires |s'.disk| == |s.disk| && forall k :: 0 <= k < |s.disk| ==> ViewAt(s', k) == ViewAt(s, k)
    ensures SameHome(l, View(s'), View(s))
  {
  }

  lemma MemoryStepView(l: Layout, s: State, step: Step)
    requires CacheOk(l, s) && InRange(l, s) && Enabled(l, s, step) && !step.Modify? && !step.Crash?
    requires !step.WriteLogBlock? && !step.WriteHead? && !step.InstallBlock? && !step.ClearHead?
    ensures SameHome(l, View(Apply(l, s, step)), View(s))
  {
    hide SameHome, View, HeaderOf, HeaderCount, CacheOk;
    if step.Fetch? || step.Evict? {
      CacheStepView(l, s, step.sector);
    } else {
      SameView(l, s, Apply(l, s, step));
    }
  }

  lemma CacheStepView(l: Layout, s: State, k: nat)
    requires CacheOk(l, s) && if k in s.cache then k !in s.held && !s.cache[k].dirty else k < |s.disk|
    ensures k < |s.disk|
    ensures SameHome(l, View(s.(cache := s.cache[k := Buf(s.disk[k], false)])), View(s))
    ensures SameHome(l, View(s.(cache := s.cache - {k})), View(s))
  {
    hide SameHome, View;
    SameView(l, s, s.(cache := s.cache[k := Buf(s.disk[k], false)]));
    SameView(l, s, s.(cache := s.cache - {k}));
  }

  /** Apart from an operation changing its buffer and a crash, no step changes
      what the running file system sees. */
  lemma ViewStep(l: Layout, s: State, step: Step)
    requires Inv(l, s) && Enabled(l, s, step) && !step.Modify? && !step.Crash?
    requires !(s.pc.Install? && s.pc.recovering)
    ensures SameHome(l, View(Apply(l, s, step)), View(s))
  {
    hide GoodDisk, GoodHeader, CacheOk, PcOk, ReservationOk, SameHome, View, Written;
    match step
    case InstallBlock => InstallViewStep(l, s);
    case WriteLogBlock =>
      LogSectorView(l, s, l.start + 1 + s.pc.tail, s.cache[s.lh[s.pc.tail]].data, WriteLog(s.pc.tail + 1));
    case WriteHead =>
      LogSectorView(l, s, l.start, EncodeHeader(s.cache[l.start].data, s.lh), Install(0, false));
    case ClearHead =>
      LogSectorView(l, s, l.start, EncodeHeader(s.cache[l.start].data, []), if s.pc.recovering then Running else Finish);
    case _ => MemoryStepView(l, s, step);
  }

  // ----- whole runs

  ghost predicate IsRun(l: Layout, run: seq<State>, steps: seq<Step>) {
    && |run| == |steps| + 1
    && forall i {:trigger steps[i]} :: 0 <= i < |steps| ==> Follows(l, run[i], steps[i], run[i + 1])
  }

  lemma BootedKeepsInv(l: Layout, d: seq<Block>)
    requires GoodDisk(l, d)
    ensures Inv(l, Booted(d))
  {
  }

  lemma {:induction false} RunKeepsInv(l: Layout, run: seq<State>, steps: seq<Step>, k: nat)
    requires IsRun(l, run, steps) && Inv(l, run[0]) && k < |run|
    ensures Inv(l, run[k])
  {
    hide Inv;
    if k > 0 {
      RunKeepsInv(l, run, steps, k - 1);
      StepKeepsInv(l, run[k - 1], steps[k - 1]);
    }
  }

  /** State j of a run is a point with no operation in progress, and its file
      system is what the disk of state k recovers to. */
  ghost predicate RecoversTo(l: Layout, run: seq<State>, k: nat, j: nat)
    requires k < |run| && j < |run| && Inv(l, run[k]) && Inv(l, run[j])
  {
    run[j].ops == map[] && SameHome(l, Recovered(l, run[k].disk), Logical(l, run[j]))
  }

  /** Point j of a run is the header write of a commit. */
  predicate CommitPointAt(run: seq<State>, steps: seq<Step>, j: nat) {
    0 < j < |run| && j <= |steps| && steps[j - 1].WriteHead? && run[j].pc == Install(0, false)
  }

  /** Crash safety and durability.  Take any interleaving of operations, cache
      traffic, commits, crashes and interrupted recoveries, and any settled
      point i in it.  Whatever the disk looks like at a later point k, it
      recovers to the file system as it was at point i or at the last commit
      since, at which no operation was in progress: never to part of an
      operation, and never to anything older than point i. */
  lemma {:induction false} CrashSafety(l: Layout, run: seq<State>, steps: seq<Step>, i: nat, k: nat) returns (j: nat)
    requires IsRun(l, run, steps) && Inv(l, run[0])
    requires i <= k < |run| && Settled(run[i])
    ensures i <= j <= k && Inv(l, run[k]) && Inv(l, run[j]) && RecoversTo(l, run, k, j)
    ensures j == i || CommitPointAt(run, steps, j)
    ensures forall c :: j < c <= k ==> !CommitPointAt(run, steps, c)
    decreases k
  {
    hide CacheOk, PcOk, ReservationOk, GoodHeader, GoodDisk, InRange, Logical, Recovered, SameHome, Enabled;
    RunKeepsInv(l, run, steps, k);
    if i == k {
      SettledIsDurable(l, run[k]);
      j := k;
    } else {
      j := CrashSafety(l, run, steps, i, k - 1);
      RecoverableStep(l, run[k - 1], steps[k - 1]);
      if steps[k - 1].WriteHead? {
        j := k;
      } else {
        SameHomeTransitive(l, run[k].disk, run[k - 1].disk, run[j]);
      }
    }
  }

  lemma SameHomeTransitive(l: Layout, d': seq<Block>, d: seq<Block>, s: State)
    requires GoodDisk(l, d') && GoodDisk(l, d) && GoodDisk(l, s.disk)
    requires SameHome(l, Recovered(l, d'), Recovered(l, d)) && SameHome(l, Recovered(l, d), Logical(l, s))
    ensures SameHome(l, Recovered(l, d'), Logical(l, s))
  {
  }

  // ----- admission control

  /** In every reachable state the logged sectors plus the unused reservations
      fit the array of the header and the logged sectors are distinct.  On a log
      of more than LOGSIZE blocks, the size guard of log_write lets every
      operation through that has reservation left, and nothing overruns. */
  lemma ReservationHolds(l: Layout, run: seq<State>, steps: seq<Step>, k: nat, who: OpId)
    requires IsRun(l, run, steps) && Inv(l, run[0]) && k < |run|
    ensures |run[k].lh| + Unused(run[k].ops) <= LOGSIZE && Distinct(run[k].lh)
    ensures LOGSIZE < l.size && who in run[k].ops && run[k].ops[who] < MAXOPBLOCKS ==> SizeGuardPasses(l, run[k])
    ensures LOGSIZE < l.size ==> forall x :: !Overruns(l, run[k], who, x)
  {
    RunKeepsInv(l, run, steps, k);
    var s := run[k];
    if who in s.ops && s.ops[who] < MAXOPBLOCKS {
      UnusedRemove(s.ops, who);
      UnusedBounds(s.ops - {who});
    }
  }

  function UsedBy(op: nat, m: nat): nat {
    if m <= op * MAXOPBLOCKS then 0 else if m >= (op + 1) * MAXOPBLOCKS then MAXOPBLOCKS else m - op * MAXOPBLOCKS
  }

  /** Three operations that have filled the first m places of the log. */
  ghost function Filled(d: seq<Block>, m: nat): (s: State)
    requires m <= LOGSIZE <= |d|
    ensures s.disk == d && s.pc.Running? && |s.lh| == m
    ensures s.ops == map[0 := UsedBy(0, m), 1 := UsedBy(1, m), 2 := UsedBy(2, m)]
    ensures forall k :: k in s.cache <==> 0 <= k < m
    ensures forall k :: k in s.held <==> 0 <= k < m
    ensures forall i :: 0 <= i < m ==> s.lh[i] == i
    ensures 0 < m ==> m - 1 in s.held && s.held[m - 1].owner == (m - 1) / MAXOPBLOCKS
  {
    var ops := map[0 := UsedBy(0, m), 1 := UsedBy(1, m), 2 := UsedBy(2, m)];
    if m == 0 then State(d, map[], map[], [], ops, Running)
    else
      var s := Filled(d, m - 1);
      State(d, s.cache[m - 1 := Buf(d[m - 1], true)],
            s.held[m - 1 := Hold((m - 1) / MAXOPBLOCKS, false, false)], s.lh + [m - 1], ops, Running)
  }

  /** The disk after recovery has run on one whose header is empty. */
  function Cleared(l: Layout, d: seq<Block>): seq<Block>
    requires l.start < |d|
  {
    d[l.start := EncodeHeader(d[l.start], [])]
  }

  /** A run from power-up. */
  ghost predicate PowersUp(l: Layout, d: seq<Block>, run: seq<State>, steps: seq<Step>) {
    GoodDisk(l, d) && IsRun(l, run, steps) && run[0] == Booted(d)
  }

  /** Recovery's states on a disk with an empty header, while the header is in
      the cache. */
  function Reading(l: Layout, d: seq<Block>, pc: Pc): State
    requires l.start < |d|
  {
    State(d, map[l.start := Buf(d[l.start], false)], map[], [], map[], pc)
  }

  lemma BootReads(l: Layout, d: seq<Block>)
    requires GoodDisk(l, d) && HeaderOf(d[l.start]) == []
    ensures Follows(l, Booted(d), Fetch(l.start), Reading(l, d, Boot))
    ensures Follows(l, Reading(l, d, Boot), ReadHead, Reading(l, d, Install(0, true)))
    ensures Follows(l, Reading(l, d, Install(0, true)), InstallDone, Reading(l, d, Clear(true)))
  {
    hide HeaderOf, EncodeHeader, GoodHeader;
  }

  lemma BootClears(l: Layout, d: seq<Block>)
    requires GoodDisk(l, d)
    ensures Follows(l, Reading(l, d, Clear(true)), ClearHead, Reading(l, Cleared(l, d), Running))
    ensures Follows(l, Reading(l, Cleared(l, d), Running), Evict(l.start), State(Cleared(l, d), map[], map[], [], map[], Running))
  {
    hide HeaderOf, EncodeHeader, HeaderCount, GoodHeader;
    var s := Reading(l, Cleared(l, d), Running);
    assert s.cache - {l.start} == map[];
  }

  lemma BootsUp(l: Layout, d: seq<Block>) returns (run: seq<State>, steps: seq<Step>)
    requires GoodDisk(l, d) && HeaderOf(d[l.start]) == []
    ensures PowersUp(l, d, run, steps)
    ensures run[|run| - 1] == State(Cleared(l, d), map[], map[], [], map[], Running)
  {
    hide Follows, Cleared, Reading;
    BootReads(l, d);
    BootClears(l, d);
    ClearedLength(l, d);
    var r0, r1, r2 := Reading(l, d, Boot), Reading(l, d, Install(0, true)), Reading(l, d, Clear(true));
    var r3, r4 := Reading(l, Cleared(l, d), Running), State(Cleared(l, d), map[], map[], [], map[], Running);
    run, steps := [Booted(d)], [];
    RunExtends(l, run, steps, Fetch(l.start), r0);
    run, steps := run + [r0], steps + [Fetch(l.start)];
    RunExtends(l, run, steps, ReadHead, r1);
    run, steps := run + [r1], steps + [ReadHead];
    RunExtends(l, run, steps, InstallDone, r2);
    run, steps := run + [r2], steps + [InstallDone];
    RunExtends(l, run, steps, ClearHead, r3);
    run, steps := run + [r3], steps + [ClearHead];
    RunExtends(l, run, steps, Evict(l.start), r4);
    run, steps := run + [r4], steps + [Evict(l.start)];
  }

  lemma BeginThree(l: Layout, d: seq<Block>) returns (run: seq<State>, steps: seq<Step>)
    requires GoodDisk(l, d) && HeaderOf(d[l.start]) == [] && LOGSIZE <= l.start
    ensures PowersUp(l, d, run, steps) && run[|run| - 1] == Filled(Cleared(l, d), 0)
  {
    hide HeaderOf, EncodeHeader, HeaderCount, GoodHeader;
    run, steps := BootsUp(l, d);
    var s := run[|run| - 1];
    var s1, s2 := s.(ops := map[0 := 0]), s.(ops := map[0 := 0, 1 := 0]);
    var s3 := s.(ops := map[0 := 0, 1 := 0, 2 := 0]);
    assert Follows(l, s, BeginOp(0), s1) && Follows(l, s1, BeginOp(1), s2) && Follows(l, s2, BeginOp(2), s3);
    RunExtends(l, run, steps, BeginOp(0), s1);
    RunExtends(l, run + [s1], steps + [BeginOp(0)], BeginOp(1), s2);
    RunExtends(l, run + [s1] + [s2], steps + [BeginOp(0)] + [BeginOp(1)], BeginOp(2), s3);
    run, steps := run + [s1] + [s2] + [s3], steps + [BeginOp(0)] + [BeginOp(1)] + [BeginOp(2)];
    assert s3 == Filled(Cleared(l, d), 0);
  }

  /** The buffer of the next sector, read in and held. */
  ghost function Holding(d: seq<Block>, m: nat, checked: bool): State
    requires m < LOGSIZE <= |d|
  {
    var s := Filled(d, m);
    s.(cache := s.cache[m := Buf(d[m], false)], held := s.held[m := Hold(m / MAXOPBLOCKS, false, checked)])
  }

  lemma FillReads(l: Layout, d: seq<Block>, m: nat) returns (s1: State)
    requires m + 1 < l.size && l.start + l.size <= |d| && m < LOGSIZE <= l.start
    ensures Follows(l, Filled(d, m), Fetch(m), s1)
    ensures Follows(l, s1, Acquire(m / MAXOPBLOCKS, m), Holding(d, m, false))
  {
    var s := Filled(d, m);
    s1 := s.(cache := s.cache[m := Buf(d[m], false)]);
  }

  lemma FillChecks(l: Layout, d: seq<Block>, m: nat)
    requires m + 1 < l.size && l.start + l.size <= |d| && m < LOGSIZE <= l.start
    ensures Follows(l, Holding(d, m, false), CheckSize(m / MAXOPBLOCKS, m), Holding(d, m, true))
  {
  }

  lemma FillWrites(l: Layout, d: seq<Block>, m: nat)
    requires m + 1 < l.size && l.start + l.size <= |d| && m < LOGSIZE <= l.start
    ensures Follows(l, Holding(d, m, true), LogWrite(m / MAXOPBLOCKS, m), Filled(d, m + 1))
  {
    hide Filled, UsedBy, Unused;
    FillCounts(m);
    FilledNext(d, m);
    assert m !in Filled(d, m).lh;
    var s, who := Holding(d, m, true), m / MAXOPBLOCKS;
    assert who in s.ops && s.ops[who] < MAXOPBLOCKS;
    assert s.ops[who := s.ops[who] + 1] == Filled(d, m + 1).ops;
    assert Enabled(l, s, LogWrite(who, m));
  }

  lemma FilledNext(d: seq<Block>, m: nat)
    requires m < LOGSIZE <= |d|
    ensures var s, f := Filled(d, m), Filled(d, m + 1);
            && f.cache == s.cache[m := Buf(d[m], true)] && f.held == s.held[m := Hold(m / MAXOPBLOCKS, false, false)]
            && f.lh == s.lh + [m]
  {
  }

  /** Operation m / 10 is the one charged with block m, and has room for it. */
  lemma FillCounts(m: nat)
    requires m < LOGSIZE
    ensures m / MAXOPBLOCKS < 3 && UsedBy(m / MAXOPBLOCKS, m) < MAXOPBLOCKS
    ensures forall op: nat :: op < 3 ==> UsedBy(op, m + 1) == UsedBy(op, m) + if op == m / MAXOPBLOCKS then 1 else 0
  {
  }

  /** The run of three operations that fill m places of the log. */
  lemma {:induction false} FillLog(l: Layout, d: seq<Block>, m: nat) returns (run: seq<State>, steps: seq<Step>)
    requires GoodDisk(l, d) && HeaderOf(d[l.start]) == [] && m <= LOGSIZE <= l.start && m < l.size
    ensures PowersUp(l, d, run, steps) && run[|run| - 1] == Filled(Cleared(l, d), m)
  {
    hide Follows, Holding, Cleared, HeaderOf;
    if m == 0 {
      run, steps := BeginThree(l, d);
    } else {
      run, steps := FillLog(l, d, m - 1);
      var who, c := (m - 1) / MAXOPBLOCKS, Cleared(l, d);
      run, steps := FillHolds(l, d, m - 1, run, steps);
      ClearedLength(l, d);
      FillWrites(l, c, m - 1);
      RunExtends(l, run, steps, LogWrite(who, m - 1), Filled(c, m));
      run, steps := run + [Filled(c, m)], steps + [LogWrite(who, m - 1)];
    }
  }

  /** The next sector is read, held and past the test of the size. */
  lemma FillHolds(l: Layout, d: seq<Block>, m: nat, run: seq<State>, steps: seq<Step>)
    returns (run': seq<State>, steps': seq<Step>)
    requires PowersUp(l, d, run, steps) && m < LOGSIZE <= l.start && m + 1 < l.size
    requires |run| > 0 && run[|run| - 1] == Filled(Cleared(l, d), m)
    ensures PowersUp(l, d, run', steps') && |run'| > 0 && run'[|run'| - 1] == Holding(Cleared(l, d), m, true)
  {
    hide Follows, Holding, Cleared;
    var who, c := m / MAXOPBLOCKS, Cleared(l, d);
    ClearedLength(l, d);
    var s1 := FillReads(l, c, m);
    FillChecks(l, c, m);
    RunExtends(l, run, steps, Fetch(m), s1);
    run', steps' := run + [s1], steps + [Fetch(m)];
    RunExtends(l, run', steps', Acquire(who, m), Holding(c, m, false));
    run', steps' := run' + [Holding(c, m, false)], steps' + [Acquire(who, m)];
    RunExtends(l, run', steps', CheckSize(who, m), Holding(c, m, true));
    run', steps' := run' + [Holding(c, m, true)], steps' + [CheckSize(who, m)];
  }

  lemma ClearedLength(l: Layout, d: seq<Block>)
    requires l.start < |d|
    ensures |Cleared(l, d)| == |d|
  {
  }

  /** The guard also refuses writes that need no room: three admitted operations
      that keep to their reservations can reach a state in which writing again a
      sector that is already logged panics. */
  lemma AbsorbedWriteRefused(l: Layout, d: seq<Block>) returns (run: seq<State>, steps: seq<Step>, who: OpId, k: nat)
    requires GoodDisk(l, d) && HeaderOf(d[l.start]) == [] && LOGSIZE <= l.start && 2 <= l.size
    ensures PowersUp(l, d, run, steps)
    ensures var s := run[|run| - 1]; k in s.lh && HeldBy(s, who, k) && who in s.ops && !SizeGuardPasses(l, s)
  {
    hide HeaderOf, Cleared;
    var m := if LOGSIZE < l.size then LOGSIZE else l.size - 1;
    run, steps := FillLog(l, d, m);
    who, k := (m - 1) / MAXOPBLOCKS, m - 1;
    assert run[|run| - 1].lh[m - 1] == m - 1;
  }

  /** An operation with reservation left is turned away. */
  predicate Refused(l: Layout, s: State, who: OpId) {
    who in s.ops && s.ops[who] < MAXOPBLOCKS && !SizeGuardPasses(l, s)
  }

  /** On a log of at most LOGSIZE blocks, which is what mkfs makes, a new sector
      within the reservation can be refused. */
  lemma NewSectorRefused(l: Layout, d: seq<Block>) returns (run: seq<State>, steps: seq<Step>, who: OpId, k: nat)
    requires GoodDisk(l, d) && HeaderOf(d[l.start]) == [] && l.size <= LOGSIZE <= l.start
    ensures PowersUp(l, d, run, steps) && Refused(l, run[|run| - 1], who)
    ensures k !in run[|run| - 1].lh && k < |d| && !l.InLog(k)
  {
    hide HeaderOf, Cleared;
    k := l.size - 1;
    who := k / MAXOPBLOCKS;
    run, steps := FillLog(l, d, k);
  }

  /** Every operation with reservation left passes the guard, in every run, if
      and only if the log has more than LOGSIZE blocks. */
  lemma GuardAdmitsIff(l: Layout, d: seq<Block>)
    requires GoodDisk(l, d) && HeaderOf(d[l.start]) == [] && LOGSIZE <= l.start
    ensures LOGSIZE < l.size <==>
            forall run, steps, k: nat, who ::
              PowersUp(l, d, run, steps) && k < |run| ==> !Refused(l, run[k], who)
  {
    if LOGSIZE < l.size {
      BootedKeepsInv(l, d);
      forall run, steps, k: nat, who | PowersUp(l, d, run, steps) && k < |run| ensures !Refused(l, run[k], who) {
        ReservationHolds(l, run, steps, k, who);
      }
    } else {
      var run, steps, who, _ := NewSectorRefused(l, d);
      assert PowersUp(l, d, run, steps) && Refused(l, run[|run| - 1], who);
    }
  }

  /** The test of the size is made before the lock is taken: two operations that
      both pass it with room for one fill the log beyond its end. */
  lemma LogOverruns(l: Layout, d: seq<Block>) returns (run: seq<State>, steps: seq<Step>, who: OpId, k: nat)
    requires GoodDisk(l, d) && HeaderOf(d[l.start]) == [] && 2 <= l.size <= LOGSIZE <= l.start
    ensures PowersUp(l, d, run, steps) && Overruns(l, run[|run| - 1], who, k)
  {
    hide HeaderOf, Cleared, Holding, HoldingTwo, Follows;
    var m := l.size - 2;
    var c := Cleared(l, d);
    run, steps := FillLog(l, d, m);
    run, steps := FillHolds(l, d, m, run, steps);
    k := m + 1;
    who := k / MAXOPBLOCKS;
    ClearedLength(l, d);
    var s1 := SecondReads(l, c, m);
    var s2 := SecondWrites(l, c, m);
    SecondChecks(l, c, m);
    RunExtends(l, run, steps, Fetch(k), s1);
    run, steps := run + [s1], steps + [Fetch(k)];
    RunExtends(l, run, steps, Acquire(who, k), HoldingTwo(c, m, false));
    run, steps := run + [HoldingTwo(c, m, false)], steps + [Acquire(who, k)];
    RunExtends(l, run, steps, CheckSize(who, k), HoldingTwo(c, m, true));
    run, steps := run + [HoldingTwo(c, m, true)], steps + [CheckSize(who, k)];
    RunExtends(l, run, steps, LogWrite(m / MAXOPBLOCKS, m), s2);
    run, steps := run + [s2], steps + [LogWrite(m / MAXOPBLOCKS, m)];
  }

  /** The sector after that one held as well, with the test passed or not. */
  ghost function HoldingTwo(d: seq<Block>, m: nat, checked: bool): State
    requires m + 1 < LOGSIZE <= |d|
  {
    var s, k := Holding(d, m, true), m + 1;
    s.(cache := s.cache[k := Buf(d[k], false)], held := s.held[k := Hold(k / MAXOPBLOCKS, false, checked)])
  }

  lemma SecondReads(l: Layout, d: seq<Block>, m: nat) returns (s1: State)
    requires m + 2 == l.size <= LOGSIZE <= l.start && l.start + l.size <= |d|
    ensures Follows(l, Holding(d, m, true), Fetch(m + 1), s1)
    ensures Follows(l, s1, Acquire((m + 1) / MAXOPBLOCKS, m + 1), HoldingTwo(d, m, false))
  {
    hide Filled;
    var s := Holding(d, m, true);
    FilledFacts(d, m);
    s1 := s.(cache := s.cache[m + 1 := Buf(d[m + 1], false)]);
  }

  lemma SecondChecks(l: Layout, d: seq<Block>, m: nat)
    requires m + 2 == l.size <= LOGSIZE <= l.start && l.start + l.size <= |d|
    ensures Follows(l, HoldingTwo(d, m, false), CheckSize((m + 1) / MAXOPBLOCKS, m + 1), HoldingTwo(d, m, true))
  {
    hide Filled;
    FilledFacts(d, m);
  }

  lemma SecondWrites(l: Layout, d: seq<Block>, m: nat) returns (s': State)
    requires m + 2 == l.size <= LOGSIZE <= l.start && l.start + l.size <= |d|
    ensures Follows(l, HoldingTwo(d, m, true), LogWrite(m / MAXOPBLOCKS, m), s')
    ensures Overruns(l, s', (m + 1) / MAXOPBLOCKS, m + 1)
  {
    hide Filled;
    FilledFacts(d, m);
    var s := HoldingTwo(d, m, true);
    s' := Apply(l, s, LogWrite(m / MAXOPBLOCKS, m));
    assert s'.lh == s.lh + [m];
  }

  lemma FilledFacts(d: seq<Block>, m: nat)
    requires m <= LOGSIZE <= |d|
    ensures var s := Filled(d, m);
            && s.disk == d && s.pc.Running? && |s.lh| == m && m !in s.lh && m + 1 !in s.lh
            && (forall i :: 0 <= i < m ==> s.lh[i] < m)
            && (forall k :: k in s.cache ==> k < m) && (forall k :: k in s.held ==> k < m)
            && s.ops == map[0 := UsedBy(0, m), 1 := UsedBy(1, m), 2 := UsedBy(2, m)]
  {
  }

  lemma {:induction false} PassedMeansRoom(l: Layout, run: seq<State>, steps: seq<Step>, k: nat)
    requires IsRun(l, run, steps) && k < |run| && run[0].held == map[]
    ensures forall x :: x in run[k].held && run[k].held[x].checked ==> 2 <= l.size
  {
    if k > 0 {
      PassedMeansRoom(l, run, steps, k - 1);
      assert Follows(l, run[k - 1], steps[k - 1], run[k]);
    }
  }

  /** A run can come to an overrun if and only if the log has from 2 to LOGSIZE
      blocks. */
  lemma OverrunIff(l: Layout, d: seq<Block>)
    requires GoodDisk(l, d) && HeaderOf(d[l.start]) == [] && LOGSIZE <= l.start
    ensures 2 <= l.size <= LOGSIZE <==>
            exists run, steps, k: nat, who, x: nat ::
              PowersUp(l, d, run, steps) && k < |run| && Overruns(l, run[k], who, x)
  {
    if 2 <= l.size <= LOGSIZE {
      var run, steps, who, x := LogOverruns(l, d);
      assert PowersUp(l, d, run, steps) && Overruns(l, run[|run| - 1], who, x);
    } else {
      BootedKeepsInv(l, d);
      forall run, steps, k: nat, who, x: nat | PowersUp(l, d, run, steps) && k < |run|
        ensures !Overruns(l, run[k], who, x)
      {
        ReservationHolds(l, run, steps, k, who);
        PassedMeansRoom(l, run, steps, k);
      }
    }
  }

  // ----- segments of a run, for the code that performs them

  predicate Recovering(s: State) {
    s.pc.Install? && s.pc.recovering
  }

  /** Steps from position a on that neither commit nor start over. */
  ghost predicate NoCommit(steps: seq<Step>, a: nat) {
    forall i :: a <= i < |steps| ==> !steps[i].WriteHead?
  }

  ghost predicate NoChange(steps: seq<Step>, a: nat) {
    forall i :: a <= i < |steps| ==> !steps[i].Modify? && !steps[i].Crash? && !steps[i].ReadHead?
  }

  lemma {:induction false} SegmentKeepsRecovered(l: Layout, run: seq<State>, steps: seq<Step>, a: nat, b: nat)
    requires IsRun(l, run, steps) && Inv(l, run[0]) && a <= b < |run|
    requires forall i :: a <= i < b ==> !steps[i].WriteHead?
    ensures Inv(l, run[a]) && Inv(l, run[b]) && SameHome(l, Recovered(l, run[b].disk), Recovered(l, run[a].disk))
    decreases b
  {
    hide CacheOk, PcOk, ReservationOk, GoodHeader, GoodDisk, InRange, Recovered, Enabled, Apply;
    RunKeepsInv(l, run, steps, a);
    if a < b {
      SegmentKeepsRecovered(l, run, steps, a, b - 1);
      RecoverableStep(l, run[b - 1], steps[b - 1]);
    }
  }

  lemma {:induction false} SegmentKeepsView(l: Layout, run: seq<State>, steps: seq<Step>, a: nat, b: nat)
    requires IsRun(l, run, steps) && Inv(l, run[0]) && a <= b < |run| && !Recovering(run[a])
    requires forall i :: a <= i < b ==> !steps[i].Modify? && !steps[i].Crash? && !steps[i].ReadHead?
    ensures !Recovering(run[b]) && SameHome(l, View(run[b]), View(run[a]))
    decreases b
  {
    hide Inv, View, InRange, Enabled, Apply, Recovering;
    if a < b {
      SegmentKeepsView(l, run, steps, a, b - 1);
      RunKeepsInv(l, run, steps, b - 1);
      StaysOutOfRecovery(l, run[b - 1], steps[b - 1]);
      ViewStep(l, run[b - 1], steps[b - 1]);
    }
  }

  /** Only a read of the header at power-up starts recovery. */
  lemma StaysOutOfRecovery(l: Layout, s: State, step: Step)
    requires InRange(l, s) && Enabled(l, s, step) && !Recovering(s) && !step.ReadHead?
    ensures !Recovering(Apply(l, s, step)) && !(s.pc.Install? && s.pc.recovering)
  {
    hide EncodeHeader, HeaderCount, HeaderOf;
  }

  /** The header write of a commit is step c - 1 of the segment starting at a,
      and no other step of it commits or changes the view. */
  ghost predicate CommitsAt(steps: seq<Step>, a: nat, c: nat) {
    && a < c <= |steps| && NoChange(steps, a)
    && forall i :: a <= i < |steps| ==> (steps[i].WriteHead? <==> i == c - 1)
  }

  /** All old before the header write, all new from it on. */
  lemma CommitIsAtomic(l: Layout, run: seq<State>, steps: seq<Step>, a: nat, c: nat, i: nat)
    requires IsRun(l, run, steps) && Inv(l, run[0]) && CommitsAt(steps, a, c) && a <= i < |run|
    requires !Recovering(run[a])
    ensures Inv(l, run[a]) && Inv(l, run[i])
    ensures SameHome(l, Recovered(l, run[i].disk), if i < c then Recovered(l, run[a].disk) else View(run[a]))
    ensures SameHome(l, View(run[i]), View(run[a]))
  {
    hide CacheOk, PcOk, ReservationOk, GoodHeader, GoodDisk, InRange, Recovered, View, Enabled, Apply;
    SegmentKeepsView(l, run, steps, a, i);
    if i < c {
      SegmentKeepsRecovered(l, run, steps, a, i);
    } else {
      SegmentKeepsView(l, run, steps, a, c);
      RunKeepsInv(l, run, steps, a);
      RunKeepsInv(l, run, steps, c - 1);
      RecoverableStep(l, run[c - 1], steps[c - 1]);
      CommittedIsView(l, run[c - 1]);
      SegmentKeepsRecovered(l, run, steps, c, i);
    }
  }

  lemma CommittedIsView(l: Layout, s: State)
    requires Inv(l, s) && Enabled(l, s, WriteHead)
    ensures var s' := Apply(l, s, WriteHead); GoodDisk(l, s'.disk) && Logical(l, s') == View(s')
  {
    StepKeepsInv(l, s, WriteHead);
  }

  /** With an empty header the disk is already what it recovers to. */
  lemma EmptyHeaderIsRecovered(l: Layout, d: seq<Block>)
    requires GoodDisk(l, d) && HeaderOf(d[l.start]) == []
    ensures SameHome(l, d, Recovered(l, d))
  {
    forall x | 0 <= x < |d| && !l.InLog(x) ensures RecoveredAt(l, d, x) == d[x] {
      RecoveredUnnamed(l, d, x);
    }
  }

  /** What Inv says at the places where control is not inside a transaction. */
  lemma IdleFacts(l: Layout, s: State)
    requires Inv(l, s)
    ensures GoodDisk(l, s.disk) && InRange(l, s)
    ensures !s.pc.Running? ==> s.ops == map[]
    ensures s.pc.Running? || s.pc.Finish? ==> HeaderOf(s.disk[l.start]) == []
    ensures s.pc.Finish? || (s.pc.Running? && s.ops == map[]) ==> s.lh == []
  {
  }

  lemma RunExtends(l: Layout, run: seq<State>, steps: seq<Step>, step: Step, s': State)
    requires IsRun(l, run, steps) && Follows(l, run[|run| - 1], step, s')
    ensures IsRun(l, run + [s'], steps + [step])
  {
  }
}
