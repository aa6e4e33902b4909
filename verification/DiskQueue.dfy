/** The interrupt-driven disk queue of ide.c, shown to do what the synchronous
    in-memory disk of memide.c does, one request at a time in arrival order. */
module DiskQueue {
  import opened Types
  import opened Blocks

  const LBA_LIMIT := 0x1000_0000   // 28-bit sector numbers

  /** A sector of the drive that bit 0 of dev selects. */
  datatype Key = Key(drive: nat, lba: nat)

  type Disk = map<Key, Block>

  datatype Buf = Buf(busy: bool, valid: bool, dirty: bool, dev: nat, sector: nat, data: Block)

  /** What idestart puts into the drive and sector registers. */
  function Address(b: Buf): Key {
    Key(b.dev % 2, b.sector % LBA_LIMIT)
  }

  /** The bytes idestart writes to ports 0x1f3 to 0x1f6. */
  function Registers(b: Buf): (int, int, int, int) {
    (b.sector % 256, b.sector / 256 % 256, b.sector / 0x1_0000 % 256, 0xE0 + 16 * (b.dev % 2) + b.sector / 0x100_0000 % 16)
  }

  /** A drive that takes the sector number from 28 bits of them, low byte first, and its
      own number from the bit above, is asked for that address. */
  lemma RegistersSelect(b: Buf)
    ensures var r := Registers(b);
            && Address(b).lba == r.0 + 256 * r.1 + 0x1_0000 * r.2 + 0x100_0000 * (r.3 % 16)
            && Address(b).drive == r.3 / 16 % 2
  {
    var n := b.sector;
    ByteDigits(n);
    var top := n / 0x100_0000;
    var high, low := top / 16, top % 16;
    assert top == 16 * high + low;
    LowDigits(n, high, n % 256 + 256 * (n / 256 % 256) + 0x1_0000 * (n / 0x1_0000 % 256) + 0x100_0000 * low);
    DriveBit(b.dev % 2, low);
  }

  lemma ByteDigits(n: nat)
    ensures n == n % 256 + 256 * (n / 256 % 256) + 0x1_0000 * (n / 0x1_0000 % 256) + 0x100_0000 * (n / 0x100_0000)
  {
    var q := n / 256;
    var p := q / 256;
    assert n / 0x1_0000 == p;
    assert n / 0x100_0000 == p / 256;
  }

  lemma LowDigits(n: nat, high: nat, low: nat)
    requires n == LBA_LIMIT * high + low && low < LBA_LIMIT
    ensures n % LBA_LIMIT == low
  {
  }

  /** The byte of port 0x1f6, taken apart. */
  lemma DriveBit(dev: nat, low: nat)
    requires dev < 2 && low < 16
    ensures (0xE0 + 16 * dev + low) % 16 == low && (0xE0 + 16 * dev + low) / 16 % 2 == dev
  {
  }

  // ----- memide.c

  /** iderw of memide.c on the image of disk 1; None is a panic. */
  function MemIde(b: Buf, image: seq<Block>): Option<(Buf, seq<Block>)> {
    if !b.busy || (b.valid && !b.dirty) || b.dev != 1 || b.sector >= |image| then None
    else if b.dirty then Some((b.(dirty := false, valid := true), image[b.sector := b.data]))
    else Some((b.(data := image[b.sector], valid := true), image))
  }

  // ----- the same on a drive of sectors

  /** One synchronous transfer. */
  function Sync(b: Buf, disk: Disk): (Buf, Disk)
    requires Address(b) in disk
  {
    if b.dirty then (b.(dirty := false, valid := true), disk[Address(b) := b.data])
    else (b.(data := disk[Address(b)], valid := true), disk)
  }

  /** What is written is what is read at that address, and nothing changes at any other. */
  lemma WrittenIsRead(b: Buf, c: Buf, disk: Disk)
    requires Address(b) in disk && Address(c) in disk && b.dirty && !c.dirty
    ensures var (b', disk') := Sync(b, disk);
            && b' == b.(dirty := false, valid := true) && disk'.Keys == disk.Keys
            && Sync(c, disk') == (c.(data := if Address(c) == Address(b) then b.data else disk[Address(c)], valid := true), disk')
            && forall key :: key in disk && key != Address(b) ==> disk'[key] == disk[key]
  {
  }

  ghost predicate IsImage(disk: Disk, image: seq<Block>) {
    |image| <= LBA_LIMIT && forall i :: 0 <= i < |image| ==> Key(1, i) in disk && disk[Key(1, i)] == image[i]
  }

  /** On requests memide accepts, a synchronous transfer is its iderw. */
  lemma SyncIsMemIde(b: Buf, disk: Disk, image: seq<Block>)
    requires IsImage(disk, image) && MemIde(b, image).Some?
    ensures Address(b) in disk && Sync(b, disk).0 == MemIde(b, image).value.0
    ensures IsImage(Sync(b, disk).1, MemIde(b, image).value.1)
  {
    assert Address(b) == Key(1, b.sector);
  }

  // ----- ide.c

  /** The drive: idle, or executing the command of the head of the queue. */
  datatype Drive = Idle | Executing(key: Key, write: Option<Block>, done: bool)

  datatype State = State(bufs: seq<Buf>, queue: seq<nat>, drive: Drive, disk: Disk)

  datatype Event =
    | Submit(b: nat)              // iderw up to its wait loop
    | Work                        // the drive carries out its command
    | Interrupt                   // ideintr
    | Own(b: nat, nb: Buf)        // whoever holds an idle buffer changes it

  function Command(b: Buf): Drive {
    Executing(Address(b), if b.dirty then Some(b.data) else None, false)
  }

  predicate Pending(b: Buf) {
    !(b.valid && !b.dirty)
  }

  predicate Enabled(s: State, e: Event) {
    match e
    case Submit(b) =>
      b < |s.bufs| && b !in s.queue && s.bufs[b].busy && Pending(s.bufs[b]) && Address(s.bufs[b]) in s.disk
    case Work => s.drive.Executing? && !s.drive.done && s.drive.key in s.disk
    case Interrupt =>
      s.queue != [] ==> s.queue[0] < |s.bufs| && s.drive.Executing? && s.drive.done && s.drive.key in s.disk
                        && forall i :: 0 <= i < |s.queue| ==> s.queue[i] < |s.bufs|
    case Own(b, nb) => b < |s.bufs| && b !in s.queue
  }

  function StartNext(bufs: seq<Buf>, queue: seq<nat>): Drive
    requires queue != [] ==> queue[0] < |bufs|
  {
    if queue == [] then Idle else Command(bufs[queue[0]])
  }

  function Next(s: State, e: Event): State
    requires Enabled(s, e)
  {
    match e
    case Submit(b) =>
      s.(queue := s.queue + [b], drive := if s.queue == [] then Command(s.bufs[b]) else s.drive)
    case Work =>
      s.(drive := s.drive.(done := true), disk := if s.drive.write.Some? then s.disk[s.drive.key := s.drive.write.value] else s.disk)
    case Interrupt =>
      if s.queue == [] then s
      else
        var h := s.queue[0];
        var b := if s.bufs[h].dirty then s.bufs[h] else s.bufs[h].(data := s.disk[s.drive.key]);
        var bufs := s.bufs[h := b.(valid := true, dirty := false)];
        State(bufs, s.queue[1..], StartNext(bufs, s.queue[1..]), s.disk)
    case Own(b, nb) => s.(bufs := s.bufs[b := nb])
  }

  /** What every interleaving keeps: the queue has no repetition, its members wait
      busy and untransferred, and the drive works on its head. */
  ghost predicate Inv(s: State) {
    && (forall i :: 0 <= i < |s.queue| ==> QueuedOk(s, i))
    && (forall i, j :: 0 <= i < j < |s.queue| ==> s.queue[i] != s.queue[j])
    && (s.queue == [] <==> s.drive.Idle?)
    && (s.queue != [] ==> s.queue[0] < |s.bufs| && s.drive.Executing? && s.drive.(done := false) == Command(s.bufs[s.queue[0]]))
  }

  ghost predicate QueuedOk(s: State, i: nat) {
    i < |s.queue| && s.queue[i] < |s.bufs| && s.bufs[s.queue[i]].busy && Pending(s.bufs[s.queue[i]]) && Address(s.bufs[s.queue[i]]) in s.disk
  }

  lemma StepKeepsInv(s: State, e: Event)
    requires Inv(s) && Enabled(s, e)
    ensures Inv(Next(s, e))
  {
    var s' := Next(s, e);
    forall i | 0 <= i < |s'.queue| ensures QueuedOk(s', i) {
      if e.Interrupt? && s.queue != [] { assert QueuedOk(s, i + 1); } else if i < |s.queue| { assert QueuedOk(s, i); }
    }
  }

  /** A request in the queue does not wait for nothing: the drive has work to do, or an
      interrupt to raise. */
  lemma QueueMoves(s: State)
    requires Inv(s) && s.queue != []
    ensures Enabled(s, Work) || Enabled(s, Interrupt)
  {
    assert QueuedOk(s, 0);
    forall i | 0 <= i < |s.queue| ensures s.queue[i] < |s.bufs| { assert QueuedOk(s, i); }
  }

  /** The synchronous machine next to it: same buffers, and the disk without a
      write the drive has done but not yet reported. */
  datatype Spec = Spec(bufs: seq<Buf>, disk: Disk)

  datatype SpecEvent = Io(b: nat) | Change(b: nat, nb: Buf)

  function SpecNext(p: Spec, e: SpecEvent): Spec
    requires e.b < |p.bufs| && (e.Io? ==> Address(p.bufs[e.b]) in p.disk)
  {
    match e
    case Io(b) => Spec(p.bufs[b := Sync(p.bufs[b], p.disk).0], Sync(p.bufs[b], p.disk).1)
    case Change(b, nb) => p.(bufs := p.bufs[b := nb])
  }

  ghost predicate Simulates(s: State, p: Spec) {
    && s.bufs == p.bufs && s.disk.Keys == p.disk.Keys
    && s.disk == if s.drive.Executing? && s.drive.done && s.drive.write.Some?
                 then p.disk[s.drive.key := s.drive.write.value] else p.disk
  }

  /** The transfers a run performs, as the synchronous machine's events. */
  function Effect(s: State, e: Event): seq<SpecEvent> {
    match e
    case Interrupt => if s.queue == [] then [] else [Io(s.queue[0])]
    case Own(b, nb) => [Change(b, nb)]
    case _ => []
  }

  ghost predicate SpecAllows(p: Spec, es: seq<SpecEvent>)
    decreases |es|
  {
    es == [] || (es[0].b < |p.bufs| && (es[0].Io? ==> Address(p.bufs[es[0].b]) in p.disk) && SpecAllows(SpecNext(p, es[0]), es[1..]))
  }

  ghost function SpecRun(p: Spec, es: seq<SpecEvent>): Spec
    requires SpecAllows(p, es)
    decreases |es|
  {
    if es == [] then p else SpecRun(SpecNext(p, es[0]), es[1..])
  }

  /** An interrupt is the synchronous transfer of the head; nothing else shows. */
  lemma StepSimulates(s: State, p: Spec, e: Event)
    requires Inv(s) && Enabled(s, e) && Simulates(s, p)
    ensures SpecAllows(p, Effect(s, e)) && Simulates(Next(s, e), SpecRun(p, Effect(s, e)))
  {
    if e.Interrupt? && s.queue != [] {
      assert QueuedOk(s, 0);
      var h := s.queue[0];
      var p' := SpecNext(p, Io(h));
      assert SpecAllows(p', []);
      assert Effect(s, e)[1..] == [];
      assert Next(s, e).bufs == p'.bufs;
      assert Next(s, e).disk == p'.disk;
    } else if e.Own? {
      assert Effect(s, e)[1..] == [];
    }
  }

  ghost predicate Allows(s: State, es: seq<Event>)
    decreases |es|
  {
    es == [] || (Enabled(s, es[0]) && Allows(Next(s, es[0]), es[1..]))
  }

  ghost function Run(s: State, es: seq<Event>): State
    requires Allows(s, es)
    decreases |es|
  {
    if es == [] then s else Run(Next(s, es[0]), es[1..])
  }

  ghost function Effects(s: State, es: seq<Event>): seq<SpecEvent>
    requires Allows(s, es)
    decreases |es|
  {
    if es == [] then [] else Effect(s, es[0]) + Effects(Next(s, es[0]), es[1..])
  }

  lemma {:induction false} SpecRunConcat(p: Spec, a: seq<SpecEvent>, b: seq<SpecEvent>)
    requires SpecAllows(p, a) && SpecAllows(SpecRun(p, a), b)
    ensures SpecAllows(p, a + b) && SpecRun(p, a + b) == SpecRun(SpecRun(p, a), b)
    decreases |a|
  {
    if a == [] {
      assert a + b == b;
    } else {
      assert (a + b)[1..] == a[1..] + b;
      SpecRunConcat(SpecNext(p, a[0]), a[1..], b);
    }
  }

  /** Every interleaving of requests, drive activity and interrupts is a run of
      the synchronous disk that performs the transfers in the order reported. */
  lemma {:induction false} RunSimulates(s: State, p: Spec, es: seq<Event>)
    requires Inv(s) && Simulates(s, p) && Allows(s, es)
    ensures Inv(Run(s, es)) && SpecAllows(p, Effects(s, es)) && Simulates(Run(s, es), SpecRun(p, Effects(s, es)))
    decreases |es|
  {
    hide Next, Enabled, Inv, Simulates, Effect;
    if es != [] {
      StepKeepsInv(s, es[0]);
      StepSimulates(s, p, es[0]);
      var p' := SpecRun(p, Effect(s, es[0]));
      RunSimulates(Next(s, es[0]), p', es[1..]);
      SpecRunConcat(p, Effect(s, es[0]), Effects(Next(s, es[0]), es[1..]));
    }
  }

  // ----- first in, first out, each once

  function Submitted(es: seq<Event>): seq<nat> {
    if es == [] then [] else (if es[0].Submit? then [es[0].b] else []) + Submitted(es[1..])
  }

  function Transfers(es: seq<SpecEvent>): seq<nat> {
    if es == [] then [] else (if es[0].Io? then [es[0].b] else []) + Transfers(es[1..])
  }

  lemma {:induction false} TransfersConcat(a: seq<SpecEvent>, b: seq<SpecEvent>)
    ensures Transfers(a + b) == Transfers(a) + Transfers(b)
  {
    if a == [] {
      assert a + b == b;
    } else {
      hide Transfers;
      var first := if a[0].Io? then [a[0].b] else [];
      TransfersConcat(a[1..], b);
      TransfersCons(a);
      TransfersCons(a + b);
      assert (a + b)[1..] == a[1..] + b;
      Associates(first, Transfers(a[1..]), Transfers(b));
    }
  }

  lemma TransfersCons(es: seq<SpecEvent>)
    requires es != []
    ensures Transfers(es) == (if es[0].Io? then [es[0].b] else []) + Transfers(es[1..])
  {
  }

  lemma Associates(a: seq<nat>, b: seq<nat>, c: seq<nat>)
    ensures a + (b + c) == (a + b) + c
  {
  }

  function Arrivals(e: Event): seq<nat> {
    if e.Submit? then [e.b] else []
  }

  lemma QueueStep(s: State, e: Event)
    requires Enabled(s, e)
    ensures s.queue + Arrivals(e) == Transfers(Effect(s, e)) + Next(s, e).queue
  {
    if Effect(s, e) != [] { assert Effect(s, e)[1..] == []; }
  }

  /** Requests are transferred in the order submitted, each exactly once; those
      still queued are the rest. */
  lemma {:induction false} FirstInFirstOut(s: State, es: seq<Event>)
    requires Allows(s, es)
    ensures s.queue + Submitted(es) == Transfers(Effects(s, es)) + Run(s, es).queue
    decreases |es|
  {
    hide Next, Enabled, Effect, Arrivals;
    if es != [] {
      var e, s', rest := es[0], Next(s, es[0]), es[1..];
      QueueStep(s, e);
      FirstInFirstOut(s', rest);
      TransfersConcat(Effect(s, e), Effects(s', rest));
      SubmittedCons(es);
      Regroup(s.queue, Arrivals(e), Submitted(rest), Transfers(Effect(s, e)), s'.queue, Transfers(Effects(s', rest)), Run(s', rest).queue);
    }
  }

  lemma SubmittedCons(es: seq<Event>)
    requires es != []
    ensures Submitted(es) == Arrivals(es[0]) + Submitted(es[1..])
  {
  }

  lemma Regroup(q: seq<nat>, a: seq<nat>, sub: seq<nat>, t: seq<nat>, q': seq<nat>, ts: seq<nat>, last: seq<nat>)
    requires q + a == t + q' && q' + sub == ts + last
    ensures q + (a + sub) == (t + ts) + last
  {
    assert q + (a + sub) == (q + a) + sub;
    assert (t + q') + sub == t + (q' + sub);
    assert t + (ts + last) == (t + ts) + last;
  }

  /** The wait loop of iderw ends exactly when the request leaves the queue, and that is
      when an interrupt completes it at the head. */
  lemma WaitEndsOnCompletion(s: State, e: Event, b: nat)
    requires Inv(s) && Enabled(s, e) && b in s.queue
    ensures b < |s.bufs| == |Next(s, e).bufs| && Pending(s.bufs[b])
    ensures b in Next(s, e).queue <==> Pending(Next(s, e).bufs[b])
    ensures b !in Next(s, e).queue <==> e.Interrupt? && b == s.queue[0]
  {
    var s' := Next(s, e);
    var i :| 0 <= i < |s.queue| && s.queue[i] == b;
    assert QueuedOk(s, i);
    if e.Interrupt? && 0 < i { assert s'.queue[i - 1] == b; }
    if e.Submit? || e.Work? || e.Own? { assert s'.queue[i] == b; }
  }

  // ----- the linked queue that ide.c keeps

  /** The i-th request links to the next one, the last to nothing. */
  ghost predicate QLink(qnext: seq<nat>, queue: seq<nat>, nil: nat, i: nat) {
    && i < |queue| && queue[i] < |qnext|
    && qnext[queue[i]] == if i + 1 < |queue| then queue[i + 1] else nil
  }

  ghost predicate Chained(head: nat, qnext: seq<nat>, queue: seq<nat>, nil: nat) {
    && head == (if queue == [] then nil else queue[0])
    && forall i :: 0 <= i < |queue| ==> QLink(qnext, queue, nil, i)
  }

  class Ide {
    var bufs: seq<Buf>
    var qnext: seq<nat>
    var idequeue: nat          // |bufs| stands for a null pointer
    var havedisk1: bool
    var drive: Drive
    var disk: Disk
    ghost var queue: seq<nat>

    ghost function Abs(): State
      reads this
    {
      State(bufs, queue, drive, disk)
    }

    ghost predicate Valid()
      reads this
    {
      Inv(Abs()) && |qnext| == |bufs| && Chained(idequeue, qnext, queue, |bufs|)
    }

    /** The end of the list: the last request, or none. */
    method FindLast() returns (last: Option<nat>)
      requires Valid()
      ensures last == if queue == [] then None else Some(queue[|queue| - 1])
    {
      var cur := idequeue;
      last := None;
      ghost var i := 0;
      while cur != |bufs|
        invariant i <= |queue| && cur == (if i < |queue| then queue[i] else |bufs|)
        invariant i < |queue| ==> QueuedOk(Abs(), i)
        invariant last == if i == 0 then None else Some(queue[i - 1])
        decreases |queue| - i
      {
        assert i < |queue| && QLink(qnext, queue, |bufs|, i);
        assert i + 1 < |queue| ==> QueuedOk(Abs(), i + 1);
        last := Some(cur);
        cur := qnext[cur];
        i := i + 1;
      }
    }

    /** iderw up to its wait loop; false where it panics. */
    method Iderw(b: nat) returns (ok: bool)
      requires Valid() && b < |bufs| && b !in queue && Address(bufs[b]) in disk
      modifies this`qnext, this`idequeue, this`drive, this`queue
      ensures Valid()
      ensures ok <==> bufs[b].busy && Pending(bufs[b]) && (bufs[b].dev == 0 || havedisk1)
      ensures ok ==> Abs() == Next(old(Abs()), Submit(b))
      ensures !ok ==> Abs() == old(Abs())
    {
      hide Inv;
      if !bufs[b].busy { return false; }
      if bufs[b].valid && !bufs[b].dirty { return false; }
      if bufs[b].dev != 0 && !havedisk1 { return false; }
      ghost var before, q := qnext, queue;
      StepKeepsInv(Abs(), Submit(b));
      qnext := qnext[b := |bufs|];
      Rechained(idequeue, before, qnext, queue, |bufs|, b);
      QueueFacts(Abs());
      var last := FindLast();
      AppendChain(idequeue, qnext, queue, |bufs|, b);
      match last {
        case None => idequeue := b;
        case Some(l) => qnext := qnext[l := b];
      }
      queue := queue + [b];
      if idequeue == b {
        StartsWhenFirst(before, q, b);
        drive := Command(bufs[b]);
      } else {
        StartsWhenFirst(before, q, b);
      }
      return true;
    }

    lemma StartsWhenFirst(before: seq<nat>, q: seq<nat>, b: nat)
      requires queue == q + [b] && b !in q && Chained(idequeue, qnext, queue, |bufs|)
      ensures idequeue == b <==> q == []
    {
    }

    /** ideintr; the drive has finished the command of the head, if there is one. */
    method Ideintr()
      requires Valid() && Enabled(Abs(), Interrupt)
      modifies this`bufs, this`idequeue, this`drive, this`queue
      ensures Abs() == Next(old(Abs()), Interrupt) && Valid()
    {
      hide Inv;
      QueueFacts(Abs());
      StepKeepsInv(Abs(), Interrupt);
      if idequeue == |bufs| { return; }
      var b := idequeue;
      assert QLink(qnext, queue, |bufs|, 0);
      idequeue := qnext[b];
      if !bufs[b].dirty {
        bufs := bufs[b := bufs[b].(data := disk[drive.key])];
      }
      bufs := bufs[b := bufs[b].(valid := true, dirty := false)];
      ghost var rest := queue[1..];
      forall i | 0 <= i < |rest| ensures QLink(qnext, rest, |bufs|, i) { assert QLink(qnext, queue, |bufs|, i + 1); }
      assert rest != [] ==> rest[0] == queue[1] && rest[0] < |bufs|;
      queue := rest;
      assert idequeue == |bufs| <==> rest == [];
      drive := if idequeue != |bufs| then Command(bufs[idequeue]) else Idle;
      assert Abs() == Next(old(Abs()), Interrupt);
    }
  }

  lemma QueueFacts(s: State)
    requires Inv(s)
    ensures forall i :: 0 <= i < |s.queue| ==> s.queue[i] < |s.bufs|
    ensures forall i, j :: 0 <= i < j < |s.queue| ==> s.queue[i] != s.queue[j]
  {
    forall i | 0 <= i < |s.queue| ensures s.queue[i] < |s.bufs| { assert QueuedOk(s, i); }
  }

  lemma Rechained(head: nat, qnext: seq<nat>, qnext': seq<nat>, queue: seq<nat>, nil: nat, b: nat)
    requires Chained(head, qnext, queue, nil) && b < |qnext| && b !in queue && qnext' == qnext[b := nil]
    ensures Chained(head, qnext', queue, nil)
  {
    forall i | 0 <= i < |queue| ensures QLink(qnext', queue, nil, i) { assert QLink(qnext, queue, nil, i); }
  }

  lemma AppendChain(head: nat, qnext: seq<nat>, queue: seq<nat>, nil: nat, b: nat)
    requires Chained(head, qnext, queue, nil) && b < |qnext| && b !in queue && qnext[b] == nil
    requires forall i, j :: 0 <= i < j < |queue| ==> queue[i] != queue[j]
    ensures queue == [] ==> Chained(b, qnext, queue + [b], nil)
    ensures queue != [] ==> queue[|queue| - 1] < |qnext| && Chained(head, qnext[queue[|queue| - 1] := b], queue + [b], nil)
  {
    var q' := queue + [b];
    if queue != [] {
      assert QLink(qnext, queue, nil, |queue| - 1);
      var qnext' := qnext[queue[|queue| - 1] := b];
      forall i | 0 <= i < |q'| ensures QLink(qnext', q', nil, i) {
        if i < |queue| { assert QLink(qnext, queue, nil, i); }
      }
    } else {
      assert QLink(qnext, q', nil, 0);
    }
  }
}
