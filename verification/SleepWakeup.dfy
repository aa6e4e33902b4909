/** Any number of threads inside pipewrite, piperead and pipeclose, with the
    pipe's lock, the process table's lock, sleep and wakeup (pipe.c and
    proc.c), as a state machine over their steps, with kill. */
module SleepWakeup {
  import opened Types
  import opened Pipes

  /** What a thread is doing to the pipe: the arguments and the locals of the
      call it is in. */
  datatype Op =
    | Idle
    | Write(src: seq<Byte>, i: nat)
    | Read(n: nat, got: seq<Byte>, copying: bool)
    | Close(writable: bool)

  /** Where a thread is. */
  datatype Place =
    | Outside      // not in a pipe operation
    | Entering     // waiting for the pipe's lock
    | Critical     // holding it, at the next test or byte of the operation
    | WakeFirst    // a writer at a full buffer, about to wake the readers
    | SleepCalled  // in sleep, waiting for the process table's lock
    | SleepBoth    // in sleep, holding both locks
    | SleepOne     // the pipe's lock released, about to be marked SLEEPING
    | Asleep       // SLEEPING, both locks released
    | Woken        // RUNNABLE again, waiting for the pipe's lock
    | WakeLast     // the operation's final wakeup
    | Leaving(ok: bool)   // about to release the pipe's lock and return, -1 if not ok

  datatype Thread = Thread(op: Op, place: Place)
  datatype Owner = Free | Held(holder: nat)
  datatype Channel = NRead | NWrite

  /** stored and delivered record every byte ever put in and taken out.  abandoned
      records that a writer has left a full buffer without waking the readers,
      and that nobody has woken them since. */
  datatype State = State(
    data: seq<Byte>, nread: Word, nwrite: Word, readopen: bool, writeopen: bool,
    lock: Owner, ptable: Owner, threads: seq<Thread>, ready: seq<bool>, killed: seq<bool>,
    stored: seq<Byte>, delivered: seq<Byte>, abandoned: bool)

  datatype Event = Call(t: nat, op: Op) | Run(t: nat) | Kill(t: nat)

  predicate HoldsLock(p: Place) {
    p.Critical? || p.WakeFirst? || p.SleepCalled? || p.SleepBoth? || p.WakeLast? || p.Leaving?
  }

  predicate HoldsTable(p: Place) {
    p.SleepBoth? || p.SleepOne?
  }

  predicate GoingToSleep(p: Place) {
    p.SleepCalled? || p.SleepBoth? || p.SleepOne? || p.Asleep?
  }

  /** The channel a thread sleeps on. */
  function SleepChannel(op: Op): Channel {
    if op.Write? then NWrite else NRead
  }

  /** The channel an operation wakes. */
  function WakeChannel(op: Op): Channel {
    match op
    case Idle | Write(_, _) => NRead
    case Read(_, _, _) => NWrite
    case Close(w) => if w then NRead else NWrite
  }

  predicate Fresh(op: Op) {
    match op
    case Idle => false
    case Write(_, i) => i == 0
    case Read(_, got, copying) => got == [] && !copying
    case Close(_) => true
  }

  predicate Enabled(s: State, e: Event) {
    && e.t < |s.threads|
    && match e
       case Call(t, op) => s.threads[t].place.Outside? && Fresh(op)
       case Kill(_) => s.ptable.Free?
       case Run(t) =>
         match s.threads[t].place
         case Outside | Asleep => false
         case Entering | Woken => s.lock.Free?
         case WakeFirst | WakeLast | SleepCalled => s.ptable.Free?
         case _ => true
  }

  function Put(s: State, t: nat, op: Op, place: Place): State
    requires t < |s.threads|
  {
    s.(threads := s.threads[t := Thread(op, place)])
  }

  function Roused(th: Thread, ready: bool, chan: Channel): Thread {
    if ready && th.place.Asleep? && SleepChannel(th.op) == chan then Thread(th.op, Woken) else th
  }

  /** wakeup: every sleeper on the channel whose process is ready becomes
      runnable; wakeup1 passes over the others. */
  function Wakeup(s: State, chan: Channel): State
    requires |s.ready| == |s.threads|
  {
    s.(threads := seq(|s.threads|, u requires 0 <= u < |s.threads| => Roused(s.threads[u], s.ready[u], chan)),
       abandoned := s.abandoned && chan != NRead)
  }

  const NPROC := 64
  const NTHREAD := 16

  datatype RunState = Unused | Embryo | Sleeping | Runnable | Running | Zombie

  /** What wakeup1 makes of one thread of a process. */
  function RousedState(proc: RunState, thread: RunState, on: nat, chan: nat): RunState {
    if (proc.Runnable? || proc.Running?) && thread.Sleeping? && on == chan then Runnable else thread
  }

  /** The process table, as wakeup1 walks it. */
  class ProcTable {
    const proc: array<RunState>      // p->state
    const thread: array2<RunState>   // t->state
    const chan: array2<nat>          // t->chan

    ghost predicate Valid()
      reads this
    {
      && proc.Length == NPROC && thread.Length0 == NPROC && thread.Length1 == NTHREAD
      && chan.Length0 == NPROC && chan.Length1 == NTHREAD
    }

    constructor ()
      ensures Valid()
    {
      proc := new RunState[NPROC](_ => Unused);
      thread := new RunState[NPROC, NTHREAD]((_, _) => Unused);
      chan := new nat[NPROC, NTHREAD]((_, _) => 0);
    }

    /** wakeup1: exactly the sleepers on the channel in ready processes. */
    method Wakeup1(c: nat)
      requires Valid()
      modifies thread
      ensures forall p, t :: 0 <= p < NPROC && 0 <= t < NTHREAD ==>
                thread[p, t] == if (proc[p].Runnable? || proc[p].Running?) && old(thread[p, t]).Sleeping? && chan[p, t] == c
                                then Runnable else old(thread[p, t])
    {
      var p := 0;
      while p < NPROC
        invariant 0 <= p <= NPROC
        invariant forall q, u :: 0 <= q < NPROC && 0 <= u < NTHREAD ==>
          thread[q, u] == if q < p then RousedState(proc[q], old(thread[q, u]), chan[q, u], c) else old(thread[q, u])
      {
        if proc[p].Runnable? || proc[p].Running? {
          WakeProc(p, c);
        }
        p := p + 1;
      }
    }

    /** The inner loop, over the threads of a ready process. */
    method WakeProc(p: nat, c: nat)
      requires Valid() && p < NPROC && (proc[p].Runnable? || proc[p].Running?)
      modifies thread
      ensures forall q, u :: 0 <= q < NPROC && 0 <= u < NTHREAD ==>
                thread[q, u] == if q == p then RousedState(proc[q], old(thread[q, u]), chan[q, u], c) else old(thread[q, u])
    {
      var t := 0;
      while t < NTHREAD
        invariant 0 <= t <= NTHREAD
        invariant forall q, u :: 0 <= q < NPROC && 0 <= u < NTHREAD ==>
          thread[q, u] == if q == p && u < t then RousedState(proc[q], old(thread[q, u]), chan[q, u], c)
                          else old(thread[q, u])
      {
        if thread[p, t].Sleeping? && chan[p, t] == c {
          thread[p, t] := Runnable;
        }
        t := t + 1;
      }
    }
  }

  /** kill, for one thread of the process: it is marked, and no longer sleeps. */
  function Killed(s: State, t: nat): State
    requires t < |s.threads| == |s.killed|
  {
    var th := s.threads[t];
    s.(killed := s.killed[t := true],
       threads := s.threads[t := if th.place.Asleep? then Thread(th.op, Woken) else th])
  }

  ghost predicate AnyKilled(killed: seq<bool>) {
    exists t :: 0 <= t < |killed| && killed[t]
  }

  /** One test, byte or assignment of the operation's critical section. */
  function Body(s: State, t: nat): State
    requires t < |s.threads| == |s.killed| && |s.data| == PIPESIZE
  {
    var op := s.threads[t].op;
    match op
    case Idle => s
    case Write(src, i) =>
      if i >= |src| then Put(s, t, op, WakeLast)
      else if Full(s.nread, s.nwrite) then
        if s.readopen && !s.killed[t] then Put(s, t, op, WakeFirst) else Put(s, t, op, Leaving(false)).(abandoned := true)
      else
        Put(s, t, op.(i := i + 1), Critical).(
          data := s.data[Index(s.nwrite) := src[i]], nwrite := Next(s.nwrite), stored := s.stored + [src[i]])
    case Read(n, got, copying) =>
      if !copying then
        if s.nread == s.nwrite && s.writeopen then Put(s, t, op, if s.killed[t] then Leaving(false) else SleepCalled)
        else Put(s, t, op.(copying := true), Critical)
      else if |got| < n && s.nread != s.nwrite then
        var c := s.data[Index(s.nread)];
        Put(s, t, op.(got := got + [c]), Critical).(nread := Next(s.nread), delivered := s.delivered + [c])
      else Put(s, t, op, WakeLast)
    case Close(w) =>
      var s' := Put(s, t, op, WakeLast);
      if w then s'.(writeopen := false) else s'.(readopen := false)
  }

  function Step(s: State, e: Event): State
    requires Enabled(s, e) && |s.data| == PIPESIZE && |s.ready| == |s.threads| == |s.killed|
  {
    match e
    case Call(t, op) => Put(s, t, op, Entering)
    case Kill(t) => Killed(s, t)
    case Run(t) =>
      var op := s.threads[t].op;
      match s.threads[t].place
      case Entering | Woken => Put(s, t, op, Critical).(lock := Held(t))
      case Critical => Body(s, t)
      case WakeFirst => Put(Wakeup(s, WakeChannel(op)), t, op, SleepCalled)
      case SleepCalled => Put(s, t, op, SleepBoth).(ptable := Held(t))
      case SleepBoth => Put(s, t, op, SleepOne).(lock := Free)
      case SleepOne => Put(s, t, op, Asleep).(ptable := Free)
      case WakeLast => Put(Wakeup(s, WakeChannel(op)), t, op, Leaving(true))
      case Leaving(_) => Put(s, t, Idle, Outside).(lock := Free)
  }

  // ------------------------------------------------------------------
  // The invariant.

  /** The lock's holder will still wake the channel before letting go: the
      debt that covers a sleeper whose condition has just changed. */
  predicate Owes(th: Thread, chan: Channel) {
    || ((th.place.WakeFirst? || th.place.WakeLast?) && WakeChannel(th.op) == chan)
    || (th.place.Critical? && th.op.Write? && chan == NRead)
    || (th.place.Critical? && th.op.Read? && th.op.copying && chan == NWrite)
  }

  predicate Owed(s: State, chan: Channel) {
    s.lock.Held? && s.lock.holder < |s.threads| && Owes(s.threads[s.lock.holder], chan)
  }

  predicate LocksOk(s: State, t: nat)
    requires t < |s.threads|
  {
    && (HoldsLock(s.threads[t].place) <==> s.lock == Held(t))
    && (HoldsTable(s.threads[t].place) <==> s.ptable == Held(t))
  }

  predicate OpOk(th: Thread) {
    && (th.op.Idle? ==> th.place.Outside?)
    && (GoingToSleep(th.place) || th.place.Woken? ==> th.op.Write? || (th.op.Read? && !th.op.copying))
    && (th.place.Entering? && th.op.Read? ==> !th.op.copying)
    && (th.place.WakeFirst? ==> th.op.Write?)
    && (th.op.Write? ==> th.op.i <= |th.op.src|)
    && (th.op.Read? ==> |th.op.got| <= th.op.n && (!th.op.copying ==> th.op.got == []))
  }

  /** A thread asleep, or past the point where it can only go to sleep, has
      reason to: otherwise a wakeup is owed to it. */
  predicate SleepOk(s: State, t: nat)
    requires t < |s.threads| == |s.ready|
  {
    s.ready[t] && GoingToSleep(s.threads[t].place) ==>
      if s.threads[t].op.Write? then
        (s.readopen && Count(s.nread, s.nwrite) == PIPESIZE) || Owed(s, NWrite)
      else
        s.abandoned || (s.writeopen && Count(s.nread, s.nwrite) == 0) || Owed(s, NRead)
  }

  /** A writer about to wake the readers before sleeping has found the buffer full. */
  predicate FullOk(s: State, t: nat)
    requires t < |s.threads|
  {
    s.threads[t].place.WakeFirst? ==> s.readopen && Count(s.nread, s.nwrite) == PIPESIZE
  }

  /** What a reader holding the lock has collected are the latest bytes delivered. */
  predicate GotOk(s: State, t: nat)
    requires t < |s.threads|
  {
    var th := s.threads[t];
    th.op.Read? && HoldsLock(th.place) ==>
      |th.op.got| <= |s.delivered| && s.delivered[|s.delivered| - |th.op.got|..] == th.op.got
  }

  ghost predicate FifoOk(s: State) {
    && |s.data| == PIPESIZE && Count(s.nread, s.nwrite) <= PIPESIZE
    && s.delivered + Pending(s.data, s.nread, s.nwrite) == s.stored
  }

  predicate ThreadOk(s: State, t: nat)
    requires t < |s.threads| == |s.ready|
  {
    LocksOk(s, t) && OpOk(s.threads[t]) && SleepOk(s, t) && FullOk(s, t) && GotOk(s, t)
  }

  ghost predicate Inv(s: State) {
    && |s.ready| == |s.threads| == |s.killed|
    && (s.lock.Held? ==> s.lock.holder < |s.threads|)
    && (s.ptable.Held? ==> s.ptable.holder < |s.threads|)
    && FifoOk(s) && (s.abandoned ==> !s.readopen || AnyKilled(s.killed))
    && forall t :: 0 <= t < |s.threads| ==> ThreadOk(s, t)
  }

  // ------------------------------------------------------------------
  // Every step keeps it.

  lemma CallKeepsInv(s: State, t: nat, op: Op)
    requires Inv(s) && Enabled(s, Call(t, op))
    ensures Inv(Step(s, Call(t, op)))
  {
    hide Pending, Count, AnyKilled;
    var s' := Step(s, Call(t, op));
    forall u | 0 <= u < |s'.threads| ensures ThreadOk(s', u) { assert ThreadOk(s, u) && ThreadOk(s, t); }
  }

  lemma KillKeepsInv(s: State, t: nat)
    requires Inv(s) && Enabled(s, Kill(t))
    ensures Inv(Step(s, Kill(t)))
  {
    hide Pending, Count;
    var s' := Step(s, Kill(t));
    assert s'.killed[t];
    forall u | 0 <= u < |s'.threads| ensures ThreadOk(s', u) { assert ThreadOk(s, u) && ThreadOk(s, t); }
  }

  lemma SomeKilled(killed: seq<bool>, t: nat)
    requires t < |killed| && killed[t]
    ensures AnyKilled(killed)
  {
  }

  lemma StoreKeepsInv(s: State, t: nat)
    requires Inv(s) && Enabled(s, Run(t)) && s.threads[t].place.Critical? && s.threads[t].op.Write?
    requires s.threads[t].op.i < |s.threads[t].op.src| && !Full(s.nread, s.nwrite)
    ensures Inv(Body(s, t))
  {
    hide Pending, Count, Full, Next, Index, AnyKilled, GotOk;
    var s', op := Body(s, t), s.threads[t].op;
    FullTest(s.nread, s.nwrite);
    assert ThreadOk(s, t);
    CountAfterStore(s.nread, s.nwrite);
    StoreAppends(s.data, s.nread, s.nwrite, op.src[op.i]);
    forall u | 0 <= u < |s'.threads| ensures ThreadOk(s', u) {
      assert ThreadOk(s, u);
      WriterGot(s, s', u, t);
    }
  }

  lemma WriterGot(s: State, s': State, u: nat, t: nat)
    requires u < |s.threads| == |s'.threads| && t < |s.threads| && GotOk(s, u) && s'.delivered == s.delivered
    requires u != t ==> s'.threads[u] == s.threads[u]
    requires s'.threads[t].op.Write?
    ensures GotOk(s', u)
  {
  }

  lemma WriteKeepsInv(s: State, t: nat)
    requires Inv(s) && Enabled(s, Run(t)) && s.threads[t].place.Critical? && s.threads[t].op.Write?
    ensures Inv(Body(s, t))
  {
    hide Pending, Count, Full, Next, Index, AnyKilled, GotOk;
    var s', op := Body(s, t), s.threads[t].op;
    FullTest(s.nread, s.nwrite);
    assert ThreadOk(s, t);
    if s.killed[t] { SomeKilled(s.killed, t); }
    if op.i < |op.src| && !Full(s.nread, s.nwrite) {
      StoreKeepsInv(s, t);
    } else {
      forall u | 0 <= u < |s'.threads| ensures ThreadOk(s', u) {
        assert ThreadOk(s, u);
        WriterGot(s, s', u, t);
      }
    }
  }

  lemma ReadTestKeepsInv(s: State, t: nat)
    requires Inv(s) && Enabled(s, Run(t)) && s.threads[t].place.Critical?
    requires s.threads[t].op.Read? && !s.threads[t].op.copying
    ensures Inv(Body(s, t))
  {
    hide Pending, Count, Full, Next, Index, GotOk, AnyKilled;
    var s' := Body(s, t);
    FullTest(s.nread, s.nwrite);
    assert ThreadOk(s, t);
    ReadKeepsGot(s, t);
    forall u | 0 <= u < |s'.threads| ensures ThreadOk(s', u) {
      assert ThreadOk(s, u);
      if u != t { OthersGot(s', u); }
    }
  }

  lemma ReadCopyKeepsInv(s: State, t: nat)
    requires Inv(s) && Enabled(s, Run(t)) && s.threads[t].place.Critical?
    requires s.threads[t].op.Read? && s.threads[t].op.copying
    ensures Inv(Body(s, t))
  {
    hide Pending, Count, Full, Next, Index, GotOk, AnyKilled;
    var s' := Body(s, t);
    assert ThreadOk(s, t);
    assert FifoOk(s') by { ReadKeepsFifo(s, t); }
    ReadKeepsGot(s, t);
    forall u | 0 <= u < |s'.threads| ensures ThreadOk(s', u) {
      assert ThreadOk(s, u);
      if u != t { OthersGot(s', u); }
    }
  }

  lemma OthersGot(s: State, u: nat)
    requires u < |s.threads| && !HoldsLock(s.threads[u].place)
    ensures GotOk(s, u)
  {
  }

  lemma ReadKeepsGot(s: State, t: nat)
    requires |s.data| == PIPESIZE && t < |s.threads| == |s.killed| && GotOk(s, t) && s.threads[t].place.Critical? && s.threads[t].op.Read?
    ensures GotOk(Body(s, t), t)
  {
    hide Full, Next, Index;
    var d, got, c := s.delivered, s.threads[t].op.got, s.data[Index(s.nread)];
    assert (d + [c])[|d| - |got|..] == d[|d| - |got|..] + [c];
  }

  lemma ReadKeepsFifo(s: State, t: nat)
    requires FifoOk(s) && t < |s.threads| == |s.killed| && s.threads[t].op.Read?
    ensures FifoOk(Body(s, t))
  {
    hide Pending, Count, Full, Next, Index;
    var op := s.threads[t].op;
    if op.copying && |op.got| < op.n && s.nread != s.nwrite {
      FullTest(s.nread, s.nwrite);
      CountAfterTake(s.nread, s.nwrite);
      TakeRemoves(s.data, s.nread, s.nwrite);
      var p := Pending(s.data, s.nread, s.nwrite);
      assert p == [p[0]] + p[1..];
    }
  }

  lemma CloseKeepsInv(s: State, t: nat)
    requires Inv(s) && Enabled(s, Run(t)) && s.threads[t].place.Critical? && s.threads[t].op.Close?
    ensures Inv(Body(s, t))
  {
    hide Pending, Count, AnyKilled;
    var s' := Body(s, t);
    assert ThreadOk(s, t);
    forall u | 0 <= u < |s'.threads| ensures ThreadOk(s', u) { assert ThreadOk(s, u); }
  }

  lemma WakeKeepsInv(s: State, t: nat)
    requires Inv(s) && Enabled(s, Run(t)) && (s.threads[t].place.WakeFirst? || s.threads[t].place.WakeLast?)
    ensures Inv(Step(s, Run(t)))
  {
    hide Pending, Count, AnyKilled, GotOk;
    var s' := Step(s, Run(t));
    assert ThreadOk(s, t);
    forall u | 0 <= u < |s'.threads| ensures ThreadOk(s', u) {
      assert ThreadOk(s, u);
      GotRetained(s, s', u);
    }
  }

  lemma EnterKeepsInv(s: State, t: nat)
    requires Inv(s) && Enabled(s, Run(t)) && (s.threads[t].place.Entering? || s.threads[t].place.Woken?)
    ensures Inv(Step(s, Run(t)))
  {
    hide Pending, Count, AnyKilled;
    var s' := Step(s, Run(t));
    assert ThreadOk(s, t);
    forall u | 0 <= u < |s'.threads| ensures ThreadOk(s', u) { assert ThreadOk(s, u); }
  }

  lemma GotRetained(s: State, s': State, u: nat)
    requires u < |s.threads| == |s'.threads| && GotOk(s, u) && s'.delivered == s.delivered && s'.threads[u].op == s.threads[u].op
    requires HoldsLock(s'.threads[u].place) ==> HoldsLock(s.threads[u].place)
    ensures GotOk(s', u)
  {
  }

  lemma SleepTakesTable(s: State, t: nat)
    requires Inv(s) && Enabled(s, Run(t)) && s.threads[t].place.SleepCalled?
    ensures Inv(Step(s, Run(t)))
  {
    hide Pending, Count, AnyKilled, GotOk;
    var s' := Step(s, Run(t));
    assert ThreadOk(s, t);
    forall u | 0 <= u < |s'.threads| ensures ThreadOk(s', u) {
      assert ThreadOk(s, u);
      GotRetained(s, s', u);
    }
  }

  lemma SleepDropsLock(s: State, t: nat)
    requires Inv(s) && Enabled(s, Run(t)) && s.threads[t].place.SleepBoth?
    ensures Inv(Step(s, Run(t)))
  {
    hide Pending, Count, AnyKilled, GotOk;
    var s' := Step(s, Run(t));
    assert ThreadOk(s, t);
    forall u | 0 <= u < |s'.threads| ensures ThreadOk(s', u) {
      assert ThreadOk(s, u);
      GotRetained(s, s', u);
    }
  }

  lemma SleepDropsTable(s: State, t: nat)
    requires Inv(s) && Enabled(s, Run(t)) && s.threads[t].place.SleepOne?
    ensures Inv(Step(s, Run(t)))
  {
    hide Pending, Count, AnyKilled, GotOk;
    var s' := Step(s, Run(t));
    assert ThreadOk(s, t);
    forall u | 0 <= u < |s'.threads| ensures ThreadOk(s', u) {
      assert ThreadOk(s, u);
      GotRetained(s, s', u);
    }
  }

  lemma SleepKeepsInv(s: State, t: nat)
    requires Inv(s) && Enabled(s, Run(t)) && GoingToSleep(s.threads[t].place)
    ensures Inv(Step(s, Run(t)))
  {
    hide Inv, Step;
    match s.threads[t].place
    case SleepCalled => SleepTakesTable(s, t);
    case SleepBoth => SleepDropsLock(s, t);
    case SleepOne => SleepDropsTable(s, t);
  }

  lemma LeaveKeepsInv(s: State, t: nat)
    requires Inv(s) && Enabled(s, Run(t)) && s.threads[t].place.Leaving?
    ensures Inv(Step(s, Run(t)))
  {
    hide Pending, Count, AnyKilled;
    var s' := Step(s, Run(t));
    assert ThreadOk(s, t);
    forall u | 0 <= u < |s'.threads| ensures ThreadOk(s', u) { assert ThreadOk(s, u); }
  }

  lemma StepKeepsInv(s: State, e: Event)
    requires Inv(s) && Enabled(s, e)
    ensures Inv(Step(s, e))
  {
    hide Body, ThreadOk, Wakeup, FifoOk;
    match e
    case Call(t, op) => CallKeepsInv(s, t, op);
    case Kill(t) => KillKeepsInv(s, t);
    case Run(t) =>
      assert ThreadOk(s, t);
      match s.threads[t].place
      case Critical => BodyKeepsInv(s, t);
      case WakeFirst | WakeLast => WakeKeepsInv(s, t);
      case Entering | Woken => EnterKeepsInv(s, t);
      case Leaving(_) => LeaveKeepsInv(s, t);
      case _ => SleepKeepsInv(s, t);
  }

  lemma BodyKeepsInv(s: State, t: nat)
    requires Inv(s) && Enabled(s, Run(t)) && s.threads[t].place.Critical?
    ensures Inv(Body(s, t))
  {
    assert ThreadOk(s, t);
    match s.threads[t].op
    case Write(_, _) => WriteKeepsInv(s, t);
    case Read(_, _, copying) => if copying { ReadCopyKeepsInv(s, t); } else { ReadTestKeepsInv(s, t); }
    case Close(_) => CloseKeepsInv(s, t);
  }

  // ------------------------------------------------------------------
  // Whole runs.

  /** The state pipealloc leaves, with every thread outside. */
  ghost predicate Initial(s: State) {
    && |s.data| == PIPESIZE && s.nread == 0 && s.nwrite == 0 && s.readopen && s.writeopen
    && s.lock.Free? && s.ptable.Free? && |s.ready| == |s.threads| == |s.killed|
    && s.stored == [] && s.delivered == [] && !s.abandoned
    && (forall t :: 0 <= t < |s.killed| ==> !s.killed[t])
    && forall t :: 0 <= t < |s.threads| ==> s.threads[t] == Thread(Idle, Outside)
  }

  ghost predicate Reaches(s: State, events: seq<Event>, s': State)
    decreases |events|
  {
    if events == [] then s == s'
    else |s.data| == PIPESIZE && |s.ready| == |s.threads| == |s.killed| && Enabled(s, events[0]) &&
         Reaches(Step(s, events[0]), events[1..], s')
  }

  lemma InitialInv(s: State)
    requires Initial(s)
    ensures Inv(s)
  {
    forall t | 0 <= t < |s.threads| ensures ThreadOk(s, t) { assert s.threads[t] == Thread(Idle, Outside); }
  }

  lemma {:induction false} RunKeepsInv(s: State, events: seq<Event>, s': State)
    requires Inv(s) && Reaches(s, events, s')
    ensures Inv(s')
    decreases |events|
  {
    hide Step, Enabled, FifoOk, ThreadOk;
    if events != [] {
      StepKeepsInv(s, events[0]);
      RunKeepsInv(Step(s, events[0]), events[1..], s');
    }
  }

  /** The pipe is first in, first out over every run and every interleaving:
      the bytes taken out followed by those still inside are the bytes put in,
      and at most 512 are inside, however far the counters have wrapped. */
  lemma FirstInFirstOut(s: State, events: seq<Event>, s': State)
    requires Initial(s) && Reaches(s, events, s')
    ensures |s'.data| == PIPESIZE && s'.delivered + Pending(s'.data, s'.nread, s'.nwrite) == s'.stored
    ensures |s'.stored| - |s'.delivered| <= PIPESIZE
  {
    InitialInv(s);
    RunKeepsInv(s, events, s');
  }

  /** What one piperead returns is an unbroken stretch of the stream: the bytes
      most recently delivered. */
  lemma ReadIsContiguous(s: State, events: seq<Event>, s': State, t: nat)
    requires Initial(s) && Reaches(s, events, s')
    requires t < |s'.threads| && s'.threads[t].op.Read? && s'.threads[t].place.Leaving?
    ensures var got := s'.threads[t].op.got;
            |got| <= s'.threads[t].op.n && |got| <= |s'.delivered| && s'.delivered[|s'.delivered| - |got|..] == got
  {
    InitialInv(s);
    RunKeepsInv(s, events, s');
    assert ThreadOk(s', t);
  }

  /** Whenever the lock is free, a thread of a ready process that is asleep, or
      can no longer avoid it, still has reason to sleep: a writer faces a full
      buffer with the read end open, and a reader an empty one with the write end
      open, unless a writer has left the buffer full, because the read end is
      closed or it was killed, and no one has woken the readers since. */
  lemma NoLostWakeup(s: State, events: seq<Event>, s': State, t: nat)
    requires Initial(s) && Reaches(s, events, s') && s'.lock.Free?
    requires t < |s'.threads| && |s'.ready| == |s'.threads| && s'.ready[t]
    requires s'.threads[t].place.SleepOne? || s'.threads[t].place.Asleep?
    ensures s'.threads[t].op.Write? ==> s'.readopen && Full(s'.nread, s'.nwrite)
    ensures s'.threads[t].op.Read? && !s'.abandoned ==> s'.writeopen && s'.nread == s'.nwrite
    ensures s'.abandoned ==> !s'.readopen || AnyKilled(s'.killed)
  {
    InitialInv(s);
    RunKeepsInv(s, events, s');
    assert ThreadOk(s', t);
    FullTest(s'.nread, s'.nwrite);
  }

  /** The threads never lock each other up: whenever one is inside an operation and not
      asleep, some thread can take its next step. */
  lemma NoStandstill(s: State, events: seq<Event>, s': State, t: nat) returns (u: nat)
    requires Initial(s) && Reaches(s, events, s')
    requires t < |s'.threads| && !s'.threads[t].place.Outside? && !s'.threads[t].place.Asleep?
    ensures Enabled(s', Run(u))
  {
    InitialInv(s);
    RunKeepsInv(s, events, s');
    assert ThreadOk(s', t);
    u := t;
    if s'.lock.Held? {
      u := s'.lock.holder;
      assert ThreadOk(s', u);
    }
    if s'.ptable.Held? {
      u := s'.ptable.holder;
      assert ThreadOk(s', u);
    }
  }

  /** kill marks its thread and ends its sleep, and changes nothing else. */
  lemma KillWakes(s: State, t: nat)
    requires Inv(s) && Enabled(s, Kill(t))
    ensures var s' := Step(s, Kill(t));
            && |s'.threads| == |s.threads| && s'.killed == s.killed[t := true] && s'.threads[t].op == s.threads[t].op
            && s'.threads[t].place == (if s.threads[t].place.Asleep? then Woken else s.threads[t].place)
            && s' == s.(killed := s'.killed, threads := s.threads[t := s'.threads[t]])
  {
  }

  /** A killed thread that would have to wait gives up with -1. */
  lemma KilledGivesUp(s: State, t: nat)
    requires Inv(s) && Enabled(s, Run(t)) && s.threads[t].place.Critical? && s.killed[t]
    ensures var op, s' := s.threads[t].op, Step(s, Run(t));
            && |s'.threads| == |s.threads|
            && (op.Write? && op.i < |op.src| && Full(s.nread, s.nwrite) ==> s'.threads[t].place == Leaving(false))
            && (op.Read? && !op.copying && s.nread == s.nwrite && s.writeopen ==> s'.threads[t].place == Leaving(false))
            && !GoingToSleep(s'.threads[t].place) && !s'.threads[t].place.WakeFirst?
  {
    hide Full, Next, Index, Pending, Count, AnyKilled;
    match s.threads[t].op
    case Idle =>
    case Write(src, i) => if i >= |src| { } else if Full(s.nread, s.nwrite) { } else { }
    case Read(_, _, copying) => if copying { } else { }
    case Close(_) =>
  }

  /** A thread of a ready process that is asleep or can no longer avoid it. */
  predicate Sleeper(s: State, t: nat, writes: bool)
    requires |s.ready| == |s.threads|
  {
    t < |s.threads| && s.ready[t] && GoingToSleep(s.threads[t].place) && s.threads[t].op.Write? == writes
  }

  ghost predicate NotBoth(s: State)
    requires |s.ready| == |s.threads|
  {
    forall t: nat, u: nat :: !(Sleeper(s, t, false) && Sleeper(s, u, true))
  }

  /** What a step may do to the threads: one takes its own step, and a wakeup may
      rouse others. */
  predicate ThreadStep(s: State, s': State, t: nat)
    requires t < |s.threads|
  {
    && |s'.threads| == |s.threads| && s'.ready == s.ready
    && forall u :: 0 <= u < |s.threads| && u != t ==>
         s'.threads[u] == s.threads[u] || s'.threads[u] == Thread(s.threads[u].op, Woken)
  }

  lemma BodyThreads(s: State, t: nat)
    requires |s.data| == PIPESIZE && t < |s.threads| == |s.killed|
    ensures ThreadStep(s, Body(s, t), t)
    ensures GoingToSleep(Body(s, t).threads[t].place) && !GoingToSleep(s.threads[t].place) ==>
              s.threads[t].op.Read? && !s.threads[t].op.copying && s.nread == s.nwrite && Body(s, t).threads[t].op == s.threads[t].op
  {
    hide Full, Next, Index;
    match s.threads[t].op
    case Idle =>
    case Write(_, _) =>
    case Read(_, _, copying) => if copying { } else { }
    case Close(_) =>
  }

  /** How a thread can come to be going to sleep. */
  predicate FallsAsleep(s: State, e: Event, th': Thread)
    requires e.t < |s.threads|
  {
    var th := s.threads[e.t];
    th'.op == th.op && (GoingToSleep(th.place) || (e.Run? && th.place.WakeFirst?) || (e.Run? && th.place.Critical? && th.op.Read? && !th.op.copying && s.nread == s.nwrite))
  }

  lemma StepThreads(s: State, e: Event)
    requires |s.data| == PIPESIZE && |s.ready| == |s.threads| == |s.killed| && Enabled(s, e)
    ensures ThreadStep(s, Step(s, e), e.t)
    ensures GoingToSleep(Step(s, e).threads[e.t].place) ==> FallsAsleep(s, e, Step(s, e).threads[e.t])
  {
    hide Body;
    match e
    case Call(_, _) =>
    case Kill(_) =>
    case Run(t) =>
      match s.threads[t].place
      case Critical => BodyThreads(s, t);
      case WakeFirst =>
      case WakeLast =>
      case _ =>
  }

  lemma NewSleeper(s: State, e: Event, t: nat, writes: bool)
    requires Inv(s) && Enabled(s, e)
    ensures |Step(s, e).ready| == |Step(s, e).threads|
    ensures Sleeper(Step(s, e), t, writes) && !Sleeper(s, t, writes) ==>
              e == Run(t) && t < |s.threads| &&
              (if writes then s.threads[t].place.WakeFirst?
               else s.threads[t].place.Critical? && s.threads[t].op.Read? && !s.threads[t].op.copying && s.nread == s.nwrite)
  {
    hide Step, SleepOk, GotOk, FullOk, Pending, AnyKilled;
    assert ThreadOk(s, e.t);
    StepThreads(s, e);
  }

  lemma ReaderFindsNoWriter(s: State, t: nat, u: nat)
    requires Inv(s) && t < |s.threads| && s.threads[t].place.Critical? && s.threads[t].op.Read? && !s.threads[t].op.copying
    requires s.nread == s.nwrite
    ensures !Sleeper(s, u, true)
  {
    FullTest(s.nread, s.nwrite);
    assert ThreadOk(s, t);
    if u < |s.threads| { assert ThreadOk(s, u); }
  }

  lemma WriterWakesReaders(s: State, t: nat, u: nat)
    requires Inv(s) && Enabled(s, Run(t)) && s.threads[t].place.WakeFirst?
    ensures |Step(s, Run(t)).ready| == |Step(s, Run(t)).threads| && !Sleeper(Step(s, Run(t)), u, false)
  {
    hide Pending, Count, Full, Next, Index, AnyKilled, FifoOk;
    assert ThreadOk(s, t);
    if u < |s.threads| { assert ThreadOk(s, u); }
  }

  lemma StepKeepsNotBoth(s: State, e: Event)
    requires Inv(s) && NotBoth(s) && Enabled(s, e)
    ensures |Step(s, e).ready| == |Step(s, e).threads| && NotBoth(Step(s, e))
  {
    hide Step, Sleeper, ThreadOk, Pending, AnyKilled;
    var s' := Step(s, e);
    NewSleeper(s, e, 0, true);
    forall t: nat, u: nat ensures !(Sleeper(s', t, false) && Sleeper(s', u, true)) {
      NewSleeper(s, e, t, false);
      NewSleeper(s, e, u, true);
      if Sleeper(s', t, false) && Sleeper(s', u, true) {
        if Sleeper(s, t, false) { WriterWakesReaders(s, u, t); } else { ReaderFindsNoWriter(s, t, u); }
      }
    }
  }

  lemma {:induction false} RunKeepsNotBoth(s: State, events: seq<Event>, s': State)
    requires Inv(s) && NotBoth(s) && Reaches(s, events, s')
    ensures Inv(s') && NotBoth(s')
    decreases |events|
  {
    hide Step, Enabled, FifoOk, ThreadOk, NotBoth;
    if events != [] {
      StepKeepsInv(s, events[0]);
      StepKeepsNotBoth(s, events[0]);
      RunKeepsNotBoth(Step(s, events[0]), events[1..], s');
    }
  }

  /** So a reader and a writer of ready processes never sleep on the same pipe
      together, killed or not, whoever holds the lock. */
  lemma NoDeadlock(s: State, events: seq<Event>, s': State, t: nat, u: nat)
    requires Initial(s) && Reaches(s, events, s')
    requires t < |s'.threads| && u < |s'.threads| && |s'.ready| == |s'.threads| && s'.ready[t] && s'.ready[u]
    requires s'.threads[t].place.Asleep? && s'.threads[t].op.Read?
    ensures !(s'.threads[u].place.Asleep? && s'.threads[u].op.Write?)
  {
    InitialInv(s);
    forall v: nat ensures !Sleeper(s, v, false) {
      if v < |s.threads| { assert s.threads[v] == Thread(Idle, Outside); }
    }
    RunKeepsNotBoth(s, events, s');
    assert Sleeper(s', t, false);
    assert !Sleeper(s', u, true);
  }

  // ------------------------------------------------------------------
  // The condition is needed: with the read end closed, a writer that fills the
  // buffer returns at the test without waking anyone.

  lemma {:induction false} ReachesThen(s: State, a: seq<Event>, m: State, b: seq<Event>, s': State)
    requires Reaches(s, a, m) && Reaches(m, b, s')
    ensures Reaches(s, a + b, s')
    decreases |a|
  {
    hide Step, Enabled;
    if a == [] {
      assert a + b == b;
    } else {
      ReachesThen(Step(s, a[0]), a[1..], m, b, s');
      assert (a + b)[1..] == a[1..] + b;
    }
  }

  lemma {:induction false} WriterStores(s: State, t: nat, k: nat) returns (events: seq<Event>, s': State)
    requires |s.data| == PIPESIZE && |s.ready| == |s.threads| == |s.killed| && t < |s.threads|
    requires s.threads[t].place.Critical? && s.threads[t].op.Write? && s.threads[t].op.i + k <= |s.threads[t].op.src|
    requires Count(s.nread, s.nwrite) + k <= PIPESIZE
    ensures Reaches(s, events, s')
    ensures |s'.data| == PIPESIZE && Count(s.nread, s'.nwrite) == Count(s.nread, s.nwrite) + k
    ensures var op := s.threads[t].op;
            s' == Put(s, t, op.(i := op.i + k), Critical).(data := s'.data, nwrite := s'.nwrite, stored := s'.stored)
    decreases k
  {
    hide Count, Full, Next, Index;
    if k == 0 {
      events, s' := [], s;
    } else {
      FullTest(s.nread, s.nwrite);
      CountAfterStore(s.nread, s.nwrite);
      var next := Step(s, Run(t));
      var rest;
      rest, s' := WriterStores(next, t, k - 1);
      events := [Run(t)] + rest;
      assert events[1..] == rest;
    }
  }

  /** A reader of a ready process asleep on a pipe that is not empty, with the
      lock free and its write end open: a reachable state. */
  lemma ReaderLeftAsleep(s: State) returns (events: seq<Event>, s': State)
    requires Initial(s) && |s.threads| >= 3 && s.ready[0]
    ensures Reaches(s, events, s') && s'.lock.Free? && |s'.ready| == |s'.threads| && |s'.threads| >= 3 && s'.ready[0]
    ensures s'.threads[0].place.Asleep? && s'.threads[0].op.Read?
    ensures s'.writeopen && s'.nread != s'.nwrite && s'.abandoned
  {
    var a, m1 := ReaderSleeps(s);
    var b, m2 := ReadEndCloses(m1);
    var c, m3 := WriterFills(m2);
    ReachesThen(s, a, m1, b, m2);
    ReachesThen(s, a + b, m2, c, m3);
    events, s' := a + b + c, m3;
  }

  lemma ReaderSleeps(s: State) returns (events: seq<Event>, s': State)
    requires Initial(s) && |s.threads| >= 3
    ensures Reaches(s, events, s')
    ensures s' == Put(s, 0, Read(1, [], false), Asleep)
  {
    hide Index, Next, Full, Count;
    var call := Call(0, Read(1, [], false));
    var s1 := Step(s, call);
    var s2 := Step(s1, Run(0));
    var s3 := Step(s2, Run(0));
    var s4 := Step(s3, Run(0));
    var s5 := Step(s4, Run(0));
    s' := Step(s5, Run(0));
    events := [call, Run(0), Run(0), Run(0), Run(0), Run(0)];
    Chain(s, call, s1, Run(0), s2, Run(0), s3);
    Chain(s3, Run(0), s4, Run(0), s5, Run(0), s');
    ReachesThen(s, [call, Run(0), Run(0)], s3, [Run(0), Run(0), Run(0)], s');
    assert events == [call, Run(0), Run(0)] + [Run(0), Run(0), Run(0)];
  }

  lemma Chain(s: State, e1: Event, s1: State, e2: Event, s2: State, e3: Event, s3: State)
    requires |s.data| == PIPESIZE && |s.ready| == |s.threads| == |s.killed| && Enabled(s, e1) && s1 == Step(s, e1)
    requires |s1.data| == PIPESIZE && |s1.ready| == |s1.threads| == |s1.killed| && Enabled(s1, e2) && s2 == Step(s1, e2)
    requires |s2.data| == PIPESIZE && |s2.ready| == |s2.threads| == |s2.killed| && Enabled(s2, e3) && s3 == Step(s2, e3)
    ensures Reaches(s, [e1, e2, e3], s3)
  {
    hide Step, Enabled;
    assert [e1, e2, e3][1..] == [e2, e3] && [e2, e3][1..] == [e3] && [e3][1..] == [];
    assert Reaches(s2, [e3], s3);
    assert Reaches(s1, [e2, e3], s3);
  }

  lemma ReadEndCloses(s: State) returns (events: seq<Event>, s': State)
    requires |s.data| == PIPESIZE && |s.ready| == |s.threads| == |s.killed| && |s.threads| >= 3 && s.lock.Free? && s.ptable.Free?
    requires s.threads[0] == Thread(Read(1, [], false), Asleep) && s.threads[1] == Thread(Idle, Outside)
    requires forall t :: 2 <= t < |s.threads| ==> s.threads[t] == Thread(Idle, Outside)
    ensures Reaches(s, events, s')
    ensures s' == s.(readopen := false)
  {
    hide Index, Next, Full, Count;
    var call := Call(1, Close(false));
    var s1 := Step(s, call);
    var s2 := Step(s1, Run(1));
    var s3 := Step(s2, Run(1));
    var s4 := Step(s3, Run(1));
    s' := Step(s4, Run(1));
    events := [call, Run(1), Run(1)] + [Run(1), Run(1)];
    Chain(s, call, s1, Run(1), s2, Run(1), s3);
    assert Reaches(s3, [Run(1), Run(1)], s') by {
      assert [Run(1), Run(1)][1..] == [Run(1)] && [Run(1)][1..] == [];
      assert Reaches(s4, [Run(1)], s');
    }
    ReachesThen(s, [call, Run(1), Run(1)], s3, [Run(1), Run(1)], s');
    assert s4.threads == s3.threads[1 := Thread(Close(false), Leaving(true))];
    assert s'.threads == s.threads;
  }

  lemma StartsEmpty()
    ensures Count(0, 0) == 0
  {
  }

  lemma WriterFills(s: State) returns (events: seq<Event>, s': State)
    requires |s.data| == PIPESIZE && |s.ready| == |s.threads| == |s.killed| && |s.threads| >= 3 && s.lock.Free? && s.ptable.Free?
    requires s.threads[2] == Thread(Idle, Outside) && s.nread == 0 && s.nwrite == 0 && !s.readopen
    ensures Reaches(s, events, s')
    ensures s'.nread != s'.nwrite && s' == s.(data := s'.data, nwrite := s'.nwrite, stored := s'.stored, abandoned := true)
  {
    hide Index, Next, Full, Count;
    StartsEmpty();
    var call := Call(2, Write(seq(PIPESIZE + 1, i => 0), 0));
    var s1 := Step(s, call);
    var s2 := Step(s1, Run(2));
    assert Reaches(s, [call, Run(2)], s2) by {
      assert [call, Run(2)][1..] == [Run(2)] && [Run(2)][1..] == [];
      assert Reaches(s1, [Run(2)], s2);
    }
    var stores, s3 := WriterStores(s2, 2, PIPESIZE);
    FullTest(s3.nread, s3.nwrite);
    var s4 := Step(s3, Run(2));
    s' := Step(s4, Run(2));
    assert Reaches(s3, [Run(2), Run(2)], s') by {
      assert [Run(2), Run(2)][1..] == [Run(2)] && [Run(2)][1..] == [];
      assert Reaches(s4, [Run(2)], s');
    }
    ReachesThen(s, [call, Run(2)], s2, stores, s3);
    ReachesThen(s, [call, Run(2)] + stores, s3, [Run(2), Run(2)], s');
    events := [call, Run(2)] + stores + [Run(2), Run(2)];
    assert s'.threads == s.threads;
  }
}
