/** Who said what: over every interleaving, the bytes in a pipe are the bytes of the
    sources its writers were called with, and the reads return them. */
module PipeStream {
  import opened Pipes
  import opened SleepWakeup
  import opened Types

  // ------------------------------------------------------------------
  // What was asked for, from the calls alone.

  /** The sources of the pipewrites that thread t is called to do, in order. */
  function Sources(events: seq<Event>, t: nat): seq<seq<Byte>> {
    if events == [] then []
    else (match events[0]
          case Call(u, Write(src, _)) => if u == t then [src] else []
          case _ => []) + Sources(events[1..], t)
  }

  function Joined(parts: seq<seq<Byte>>): seq<Byte> {
    if parts == [] then [] else parts[0] + Joined(parts[1..])
  }

  lemma {:induction false} JoinedBoth(a: seq<seq<Byte>>, b: seq<seq<Byte>>)
    ensures Joined(a + b) == Joined(a) + Joined(b)
  {
    if a == [] {
      assert a + b == b;
    } else {
      JoinedBoth(a[1..], b);
      assert (a + b)[1..] == a[1..] + b && (a + b)[0] == a[0];
      assert a[0] + (Joined(a[1..]) + Joined(b)) == (a[0] + Joined(a[1..])) + Joined(b);
    }
  }

  // ------------------------------------------------------------------
  // What happened.

  /** A call that has returned: what it had done, and whether it reported success. */
  datatype Ended = Ended(op: Op, ok: bool)

  function EndsNow(s: State, e: Event, t: nat): seq<Ended>
    requires t < |s.threads|
  {
    if e == Run(t) && s.threads[t].place.Leaving? then [Ended(s.threads[t].op, s.threads[t].place.ok)] else []
  }

  /** The calls of thread t that return in a run, in order. */
  ghost function Returns(s: State, events: seq<Event>, s': State, t: nat): seq<Ended>
    requires Reaches(s, events, s') && t < |s.threads|
    decreases |events|
  {
    if events == [] then []
    else
      var next := Step(s, events[0]);
      StepThreads(s, events[0]);
      EndsNow(s, events[0], t) + Returns(next, events[1..], s', t)
  }

  function WhoNow(s: State, e: Event, next: State): seq<nat> {
    if |next.stored| > |s.stored| then [e.t] else []
  }

  /** The thread that stored each byte of a run. */
  ghost function Who(s: State, events: seq<Event>, s': State): seq<nat>
    requires Reaches(s, events, s')
    decreases |events|
  {
    if events == [] then []
    else WhoNow(s, events[0], Step(s, events[0])) + Who(Step(s, events[0]), events[1..], s')
  }

  /** The bytes of a stream that are thread t's. */
  function Part(bytes: seq<Byte>, who: seq<nat>, t: nat): seq<Byte>
    requires |who| == |bytes|
  {
    if bytes == [] then [] else (if who[0] == t then [bytes[0]] else []) + Part(bytes[1..], who[1..], t)
  }

  lemma {:induction false} PartBoth(a: seq<Byte>, b: seq<Byte>, who: seq<nat>, who': seq<nat>, t: nat)
    requires |a| == |who| && |b| == |who'|
    ensures Part(a + b, who + who', t) == Part(a, who, t) + Part(b, who', t)
  {
    if a == [] {
      assert a + b == b && who + who' == who';
    } else {
      PartBoth(a[1..], b, who[1..], who', t);
      var head := if who[0] == t then [a[0]] else [];
      assert (a + b)[1..] == a[1..] + b && (who + who')[1..] == who[1..] + who' && (a + b)[0] == a[0];
      assert head + (Part(a[1..], who[1..], t) + Part(b, who', t)) == (head + Part(a[1..], who[1..], t)) + Part(b, who', t);
    }
  }

  /** What a write has stored so far, and what it is to store. */
  function Said(op: Op): seq<Byte> {
    if op.Write? && op.i <= |op.src| then op.src[..op.i] else []
  }

  function Asked(op: Op): seq<seq<Byte>> {
    if op.Write? then [op.src] else []
  }

  function AllSaid(ended: seq<Ended>): seq<Byte> {
    if ended == [] then [] else Said(ended[0].op) + AllSaid(ended[1..])
  }

  function AllAsked(ended: seq<Ended>): seq<seq<Byte>> {
    if ended == [] then [] else Asked(ended[0].op) + AllAsked(ended[1..])
  }

  // ------------------------------------------------------------------
  // One step.

  /** How a call stands when it is over: a write that reports success has stored all
      of its source, one that does not has met a full buffer before that. */
  predicate EndOk(th: Thread) {
    && (th.place.Outside? ==> th.op.Idle?)
    && (th.op.Write? && (th.place.WakeLast? || th.place == Leaving(true)) ==> th.op.i == |th.op.src|)
    && (th.op.Write? && th.place == Leaving(false) ==> th.op.i < |th.op.src|)
  }

  ghost predicate EndsOk(s: State) {
    forall t :: 0 <= t < |s.threads| ==> EndOk(s.threads[t])
  }

  lemma BodyEnds(s: State, t: nat)
    requires t < |s.threads| == |s.killed| && |s.data| == PIPESIZE && OpOk(s.threads[t]) && s.threads[t].place.Critical?
    ensures EndOk(Body(s, t).threads[t])
  {
    hide Full, Next, Index, OpOk;
    OpOkWrite(s.threads[t]);
    match s.threads[t].op
    case Write(src, i) => if i >= |src| { } else if Full(s.nread, s.nwrite) { } else { }
    case Read(_, _, copying) => if copying { } else { }
    case _ =>
  }

  lemma OpOkWrite(th: Thread)
    requires OpOk(th)
    ensures th.op.Idle? ==> th.place.Outside?
    ensures th.op.Write? ==> th.op.i <= |th.op.src|
  {
  }

  lemma OwnStepEnds(s: State, e: Event)
    requires Inv(s) && Enabled(s, e) && EndOk(s.threads[e.t])
    ensures e.t < |Step(s, e).threads| && EndOk(Step(s, e).threads[e.t])
  {
    hide Body, OpOk, LocksOk, SleepOk, FullOk, GotOk, Pending, Count, AnyKilled;
    assert ThreadOk(s, e.t);
    OpOkWrite(s.threads[e.t]);
    if e.Run? && s.threads[e.t].place.Critical? {
      BodyEnds(s, e.t);
      BodyThreads(s, e.t);
    } else {
      OtherSteps(s, e);
    }
  }

  lemma StepKeepsEnds(s: State, e: Event)
    requires Inv(s) && EndsOk(s) && Enabled(s, e)
    ensures EndsOk(Step(s, e))
  {
    hide Step, ThreadOk, Pending, Count, AnyKilled;
    StepThreads(s, e);
    OwnStepEnds(s, e);
    var s' := Step(s, e);
    forall u | 0 <= u < |s'.threads| ensures EndOk(s'.threads[u]) { assert EndOk(s.threads[u]); }
  }

  /** A step stores at most one byte, and it is the next one of the source of the
      write whose step it is. */
  lemma StepSays(s: State, e: Event, t: nat)
    requires Inv(s) && EndsOk(s) && Enabled(s, e) && t < |s.threads|
    ensures var next := Step(s, e);
            && |next.threads| == |s.threads| && s.stored <= next.stored && |next.stored| <= |s.stored| + 1
            && Said(s.threads[t].op) + Part(next.stored[|s.stored|..], WhoNow(s, e, next), t)
               == AllSaid(EndsNow(s, e, t)) + Said(next.threads[t].op)
            && Asked(s.threads[t].op) + Sources([e], t) == AllAsked(EndsNow(s, e, t)) + Asked(next.threads[t].op)
  {
    hide Step, Part, Sources, ThreadOk, Pending, Count, AnyKilled, Fresh;
    var next := Step(s, e);
    assert EndOk(s.threads[t]);
    StepThreads(s, e);
    SourceOf(e, t);
    OwnStepSays(s, e);
    PartOne(next.stored[|s.stored|..], e.t, t);
  }

  lemma SourceOf(e: Event, t: nat)
    ensures Sources([e], t) == if e.Call? && e.t == t && e.op.Write? then [e.op.src] else []
  {
    assert [e][1..] == [];
  }

  lemma PartOne(bytes: seq<Byte>, u: nat, t: nat)
    requires |bytes| <= 1
    ensures Part(bytes, if |bytes| > 0 then [u] else [], t) == if u == t then bytes else []
  {
    if |bytes| == 1 { assert bytes == [bytes[0]] && bytes[1..] == []; }
  }

  lemma OwnStepSays(s: State, e: Event)
    requires Inv(s) && Enabled(s, e) && EndOk(s.threads[e.t])
    ensures var next, op := Step(s, e), s.threads[e.t].op;
            && |next.threads| == |s.threads| && s.stored <= next.stored && |next.stored| <= |s.stored| + 1
            && var op' := next.threads[e.t].op;
            if e.Call? then op.Idle? && op' == e.op && Said(op') == [] && next.stored == s.stored
            else if e.Run? && s.threads[e.t].place.Leaving? then op'.Idle? && next.stored == s.stored
            else Said(op) + next.stored[|s.stored|..] == Said(op') && Asked(op) == Asked(op')
  {
    hide Body, OpOk, LocksOk, SleepOk, FullOk, GotOk, Pending, Count, AnyKilled, Wakeup;
    assert ThreadOk(s, e.t);
    if e.Run? && s.threads[e.t].place.Critical? {
      BodySays(s, e.t);
      BodyThreads(s, e.t);
    } else {
      OtherSteps(s, e);
    }
  }

  /** Steps outside the critical section store nothing. */
  lemma OtherSteps(s: State, e: Event)
    requires |s.data| == PIPESIZE && |s.ready| == |s.threads| == |s.killed| && Enabled(s, e)
    requires !(e.Run? && s.threads[e.t].place.Critical?)
    ensures Step(s, e).stored == s.stored && |Step(s, e).threads| == |s.threads|
    ensures e.Run? && !s.threads[e.t].place.Leaving? ==> Step(s, e).threads[e.t].op == s.threads[e.t].op
    ensures e.Kill? ==> Step(s, e).threads[e.t].op == s.threads[e.t].op
    ensures e.Run? && !s.threads[e.t].place.WakeLast? && !s.threads[e.t].place.Leaving? ==>
              !Step(s, e).threads[e.t].place.WakeLast? && !Step(s, e).threads[e.t].place.Leaving? && !Step(s, e).threads[e.t].place.Outside?
  {
    hide Body;
    match e
    case Call(_, _) =>
    case Kill(_) =>
    case Run(t) =>
      match s.threads[t].place
      case Entering =>
      case Woken =>
      case WakeFirst =>
      case SleepCalled =>
      case SleepBoth =>
      case SleepOne =>
      case WakeLast =>
      case Leaving(_) =>
  }

  lemma BodySays(s: State, t: nat)
    requires t < |s.threads| == |s.killed| && |s.data| == PIPESIZE && OpOk(s.threads[t])
    ensures var next, op := Body(s, t), s.threads[t].op;
            && s.stored <= next.stored && |next.stored| <= |s.stored| + 1
            && Said(op) + next.stored[|s.stored|..] == Said(next.threads[t].op) && Asked(op) == Asked(next.threads[t].op)
  {
    hide Full, Next, Index, OpOk, Body;
    OpOkWrite(s.threads[t]);
    if s.threads[t].op.Write? { WriteSays(s, t); } else { OthersSayNothing(s, t); }
  }

  lemma OthersSayNothing(s: State, t: nat)
    requires t < |s.threads| == |s.killed| && |s.data| == PIPESIZE && !s.threads[t].op.Write?
    ensures Body(s, t).stored == s.stored && |Body(s, t).threads| == |s.threads| && !Body(s, t).threads[t].op.Write?
  {
    hide Full, Next, Index;
    match s.threads[t].op
    case Idle =>
    case Read(_, _, copying) => if copying { } else { }
    case Close(_) =>
  }

  lemma WriteSays(s: State, t: nat)
    requires t < |s.threads| == |s.killed| && |s.data| == PIPESIZE && s.threads[t].op.Write?
    ensures var next, op := Body(s, t), s.threads[t].op;
            && |next.threads| == |s.threads|
            && if op.i < |op.src| && !Full(s.nread, s.nwrite)
               then next.stored == s.stored + [op.src[op.i]] && next.threads[t].op == op.(i := op.i + 1)
               else next.stored == s.stored && next.threads[t].op == op
  {
    hide Full, Next, Index;
  }

  // ------------------------------------------------------------------
  // Whole runs.

  lemma {:induction false} RunSays(s: State, events: seq<Event>, s': State, t: nat)
    requires Inv(s) && EndsOk(s) && Reaches(s, events, s') && t < |s.threads|
    ensures |s'.threads| == |s.threads| && s.stored <= s'.stored && |Who(s, events, s')| == |s'.stored| - |s.stored|
    ensures Said(s.threads[t].op) + Part(s'.stored[|s.stored|..], Who(s, events, s'), t)
            == AllSaid(Returns(s, events, s', t)) + Said(s'.threads[t].op)
    decreases |events|
  {
    hide Step, Enabled, EndsOk, Inv, Said, AllSaid, Part, EndsNow, WhoNow, Sources, Asked;
    if events == [] {
      PartOne([], 0, t);
      NothingEnded();
    } else {
      var e, next, rest := events[0], Step(s, events[0]), events[1..];
      StepKeepsInv(s, e);
      StepKeepsEnds(s, e);
      StepSays(s, e, t);
      RunSays(next, rest, s', t);
      var now, later := EndsNow(s, e, t), Returns(next, rest, s', t);
      OneEnds(s, e, t);
      AllBoth(now, later);
      var first, second := next.stored[|s.stored|..], s'.stored[|next.stored|..];
      assert s'.stored[|s.stored|..] == first + second;
      WhoLength(s, e, next);
      PartBoth(first, second, WhoNow(s, e, next), Who(next, rest, s'), t);
      Regroup(Said(s.threads[t].op), Part(first, WhoNow(s, e, next), t), AllSaid(now), Said(next.threads[t].op),
              Part(second, Who(next, rest, s'), t), AllSaid(later), Said(s'.threads[t].op));
    }
  }

  lemma NothingEnded()
    ensures AllSaid([]) == [] && AllAsked([]) == []
  {
  }

  lemma OneEnds(s: State, e: Event, t: nat)
    requires t < |s.threads|
    ensures |EndsNow(s, e, t)| <= 1
  {
  }

  lemma WhoLength(s: State, e: Event, next: State)
    requires |s.stored| <= |next.stored| <= |s.stored| + 1
    ensures |WhoNow(s, e, next)| == |next.stored| - |s.stored|
  {
  }

  lemma {:induction false} RunAsks(s: State, events: seq<Event>, s': State, t: nat)
    requires Inv(s) && EndsOk(s) && Reaches(s, events, s') && t < |s.threads|
    ensures |s'.threads| == |s.threads|
    ensures Asked(s.threads[t].op) + Sources(events, t) == AllAsked(Returns(s, events, s', t)) + Asked(s'.threads[t].op)
    decreases |events|
  {
    hide Step, Enabled, EndsOk, Inv, Said, AllSaid, Part, EndsNow, WhoNow, Asked, AllAsked;
    if events == [] {
      NothingEnded();
    } else {
      var e, next, rest := events[0], Step(s, events[0]), events[1..];
      StepKeepsInv(s, e);
      StepKeepsEnds(s, e);
      StepSays(s, e, t);
      RunAsks(next, rest, s', t);
      var now, later := EndsNow(s, e, t), Returns(next, rest, s', t);
      OneEnds(s, e, t);
      AllBoth(now, later);
      SourcesCons(events, t);
      RegroupAsked(Asked(s.threads[t].op), Sources([e], t), AllAsked(now), Asked(next.threads[t].op),
                   Sources(rest, t), AllAsked(later), Asked(s'.threads[t].op));
    }
  }

  lemma Regroup(a: seq<Byte>, b: seq<Byte>, c: seq<Byte>, d: seq<Byte>, e: seq<Byte>, f: seq<Byte>, g: seq<Byte>)
    requires a + b == c + d && d + e == f + g
    ensures a + (b + e) == (c + f) + g
  {
    assert a + (b + e) == (a + b) + e;
    assert (c + d) + e == c + (d + e);
    assert c + (f + g) == (c + f) + g;
  }

  lemma RegroupAsked(a: seq<seq<Byte>>, b: seq<seq<Byte>>, c: seq<seq<Byte>>, d: seq<seq<Byte>>, e: seq<seq<Byte>>, f: seq<seq<Byte>>, g: seq<seq<Byte>>)
    requires a + b == c + d && d + e == f + g
    ensures a + (b + e) == (c + f) + g
  {
    assert a + (b + e) == (a + b) + e;
    assert (c + d) + e == c + (d + e);
    assert c + (f + g) == (c + f) + g;
  }

  lemma AllBoth(a: seq<Ended>, b: seq<Ended>)
    requires |a| <= 1
    ensures AllSaid(a + b) == AllSaid(a) + AllSaid(b) && AllAsked(a + b) == AllAsked(a) + AllAsked(b)
  {
    if a == [] {
      assert a + b == b;
    } else {
      assert a == [a[0]] && (a + b)[1..] == b && a[1..] == [];
    }
  }

  lemma SourcesCons(events: seq<Event>, t: nat)
    requires events != []
    ensures Sources(events, t) == Sources([events[0]], t) + Sources(events[1..], t)
  {
    SourceOf(events[0], t);
  }

  lemma InitialEnds(s: State)
    requires Initial(s)
    ensures Inv(s) && EndsOk(s)
  {
    InitialInv(s);
  }

  /** The stream is an interleaving of what the threads were called to write.  The
      bytes a thread stored are, in order, the beginnings of the sources of its calls
      that its writes got to; a write that reports success got to the end of its
      source, and one that reports -1 did not. */
  lemma Interleaving(s: State, events: seq<Event>, s': State, t: nat)
    requires Initial(s) && Reaches(s, events, s') && t < |s.threads|
    ensures |s'.threads| == |s.threads| && |Who(s, events, s')| == |s'.stored|
    ensures Part(s'.stored, Who(s, events, s'), t) == AllSaid(Returns(s, events, s', t)) + Said(s'.threads[t].op)
    ensures Sources(events, t) == AllAsked(Returns(s, events, s', t)) + Asked(s'.threads[t].op)
    ensures forall r :: r in Returns(s, events, s', t) && r.op.Write? ==>
              r.op.i <= |r.op.src| && (r.ok <==> r.op.i == |r.op.src|)
  {
    InitialEnds(s);
    RunSays(s, events, s', t);
    RunAsks(s, events, s', t);
    ReturnsEnd(s, events, s', t);
    assert s.threads[t] == Thread(Idle, Outside);
    assert s'.stored[|s.stored|..] == s'.stored;
  }

  lemma {:induction false} ReturnsEnd(s: State, events: seq<Event>, s': State, t: nat)
    requires Inv(s) && EndsOk(s) && Reaches(s, events, s') && t < |s.threads|
    ensures forall r :: r in Returns(s, events, s', t) && r.op.Write? ==>
              r.op.i <= |r.op.src| && (r.ok <==> r.op.i == |r.op.src|)
    decreases |events|
  {
    hide Step, Enabled, ThreadOk;
    if events != [] {
      StepKeepsInv(s, events[0]);
      StepKeepsEnds(s, events[0]);
      StepThreads(s, events[0]);
      ReturnsEnd(Step(s, events[0]), events[1..], s', t);
      assert EndOk(s.threads[t]);
    }
  }

  /** Bytes that are all one thread's are that thread's part. */
  lemma {:induction false} AllOfOne(bytes: seq<Byte>, who: seq<nat>, t: nat)
    requires |who| == |bytes| && forall k :: 0 <= k < |who| ==> who[k] == t
    ensures Part(bytes, who, t) == bytes
  {
    if bytes != [] {
      AllOfOne(bytes[1..], who[1..], t);
      assert bytes == [bytes[0]] + bytes[1..];
    }
  }

  lemma {:induction false} PartThere(bytes: seq<Byte>, who: seq<nat>, k: nat)
    requires |who| == |bytes| && k < |who|
    ensures Part(bytes, who, who[k]) != []
  {
    if k > 0 { PartThere(bytes[1..], who[1..], k - 1); }
  }

  lemma {:induction false} WhoIsThread(s: State, events: seq<Event>, s': State)
    requires Reaches(s, events, s')
    ensures forall k :: 0 <= k < |Who(s, events, s')| ==> Who(s, events, s')[k] < |s.threads|
    decreases |events|
  {
    hide Step;
    if events != [] {
      StepThreads(s, events[0]);
      WhoIsThread(Step(s, events[0]), events[1..], s');
    }
  }

  lemma {:induction false} NothingAsked(ended: seq<Ended>)
    requires AllAsked(ended) == []
    ensures AllSaid(ended) == []
  {
    if ended != [] {
      assert Asked(ended[0].op) == [];
      NothingAsked(ended[1..]);
    }
  }

  lemma {:induction false} AllFinished(ended: seq<Ended>)
    requires forall r :: r in ended && r.op.Write? ==> r.op.i == |r.op.src|
    ensures AllSaid(ended) == Joined(AllAsked(ended))
  {
    if ended != [] {
      AllFinished(ended[1..]);
      JoinedBoth(Asked(ended[0].op), AllAsked(ended[1..]));
      if ended[0].op.Write? { assert Joined([ended[0].op.src]) == ended[0].op.src; }
    }
  }

  predicate OnlyWriter(events: seq<Event>, t: nat) {
    forall e :: e in events && e.Call? && e.op.Write? ==> e.t == t
  }

  lemma {:induction false} OthersAskNothing(events: seq<Event>, t: nat, u: nat)
    requires OnlyWriter(events, t) && u != t
    ensures Sources(events, u) == []
  {
    if events != [] { OthersAskNothing(events[1..], t, u); }
  }

  /** With one writer, whose writes have all succeeded so far, what went into the pipe
      is the beginning of its sources put together. */
  lemma OneWriter(s: State, events: seq<Event>, s': State, t: nat)
    requires Initial(s) && Reaches(s, events, s') && t < |s.threads| && OnlyWriter(events, t)
    requires forall r :: r in Returns(s, events, s', t) && r.op.Write? ==> r.ok
    ensures s'.stored <= Joined(Sources(events, t))
    ensures |s'.data| == PIPESIZE && s'.delivered + Pending(s'.data, s'.nread, s'.nwrite) <= Joined(Sources(events, t))
  {
    hide Initial;
    var who := Who(s, events, s');
    Interleaving(s, events, s', t);
    WhoIsThread(s, events, s');
    forall k | 0 <= k < |who| ensures who[k] == t {
      if who[k] != t {
        Interleaving(s, events, s', who[k]);
        OthersAskNothing(events, t, who[k]);
        NothingAsked(Returns(s, events, s', who[k]));
        PartThere(s'.stored, who, k);
      }
    }
    AllOfOne(s'.stored, who, t);
    AllFinished(Returns(s, events, s', t));
    var op := s'.threads[t].op;
    JoinedBoth(AllAsked(Returns(s, events, s', t)), Asked(op));
    if op.Write? { assert Joined([op.src]) == op.src; }
    FirstInFirstOut(s, events, s');
  }

  // ------------------------------------------------------------------
  // Readers.

  function GotNow(s: State, e: Event): seq<seq<Byte>> {
    if e.Run? && e.t < |s.threads| && s.threads[e.t].place.Leaving? && s.threads[e.t].op.Read? then [s.threads[e.t].op.got] else []
  }

  /** What the pipereads that return in a run return, in that order. */
  ghost function Reads(s: State, events: seq<Event>, s': State): seq<seq<Byte>>
    requires Reaches(s, events, s')
    decreases |events|
  {
    if events == [] then [] else GotNow(s, events[0]) + Reads(Step(s, events[0]), events[1..], s')
  }

  /** What the reader holding the lock has collected. */
  function Collected(s: State): seq<Byte> {
    if s.lock.Held? && s.lock.holder < |s.threads| && s.threads[s.lock.holder].op.Read? then s.threads[s.lock.holder].op.got else []
  }

  lemma BodyCollects(s: State, t: nat)
    requires t < |s.threads| == |s.killed| && |s.data| == PIPESIZE && s.lock == Held(t)
    ensures var next := Body(s, t);
            next.lock == s.lock && s.delivered <= next.delivered && Collected(s) + next.delivered[|s.delivered|..] == Collected(next)
  {
    hide Full, Next, Index;
    match s.threads[t].op
    case Idle =>
    case Write(src, i) => if i >= |src| { } else if Full(s.nread, s.nwrite) { } else { }
    case Read(_, _, copying) => if copying { } else { }
    case Close(_) =>
  }

  lemma StepCollects(s: State, e: Event)
    requires Inv(s) && Enabled(s, e)
    ensures var next := Step(s, e);
            s.delivered <= next.delivered && Collected(s) + next.delivered[|s.delivered|..] == Joined(GotNow(s, e)) + Collected(next)
  {
    hide Body, SleepOk, FullOk, GotOk, Pending, Count, AnyKilled;
    assert ThreadOk(s, e.t);
    if s.lock.Held? { assert ThreadOk(s, s.lock.holder); }
    if e.Run? && s.threads[e.t].place.Critical? {
      BodyCollects(s, e.t);
    } else {
      OthersCollect(s, e);
    }
    JoinedNow(s, e);
  }

  lemma JoinedNow(s: State, e: Event)
    ensures Joined(GotNow(s, e)) == if GotNow(s, e) == [] then [] else GotNow(s, e)[0]
  {
  }

  lemma OthersCollect(s: State, e: Event)
    requires |s.data| == PIPESIZE && |s.ready| == |s.threads| == |s.killed| && Enabled(s, e)
    requires !(e.Run? && s.threads[e.t].place.Critical?)
    requires LocksOk(s, e.t) && OpOk(s.threads[e.t]) && (s.lock.Held? ==> s.lock.holder < |s.threads| && LocksOk(s, s.lock.holder))
    ensures Step(s, e).delivered == s.delivered
    ensures Collected(s) == if e.Run? && s.threads[e.t].place.Leaving? && s.threads[e.t].op.Read? then s.threads[e.t].op.got else Collected(Step(s, e))
    ensures e.Run? && s.threads[e.t].place.Leaving? && s.threads[e.t].op.Read? ==> Collected(Step(s, e)) == []
  {
    hide Body;
    match e
    case Call(_, _) =>
    case Kill(_) =>
    case Run(t) =>
      match s.threads[t].place
      case Entering =>
      case Woken =>
      case WakeFirst =>
      case SleepCalled =>
      case SleepBoth =>
      case SleepOne =>
      case WakeLast =>
      case Leaving(_) =>
  }

  /** Every byte that leaves the pipe is returned by exactly one read, in order: the
      results of the reads that have returned, put together, and what the reader inside
      has collected are what was delivered. */
  lemma {:induction false} ReadsAreDelivered(s: State, events: seq<Event>, s': State)
    requires Inv(s) && Reaches(s, events, s')
    ensures s.delivered <= s'.delivered
    ensures Collected(s) + s'.delivered[|s.delivered|..] == Joined(Reads(s, events, s')) + Collected(s')
    decreases |events|
  {
    hide Step, Enabled, Inv, Collected, GotNow;
    if events != [] {
      var e, next, rest := events[0], Step(s, events[0]), events[1..];
      StepKeepsInv(s, e);
      StepCollects(s, e);
      ReadsAreDelivered(next, rest, s');
      JoinedBoth(GotNow(s, e), Reads(next, rest, s'));
      var first, second := next.delivered[|s.delivered|..], s'.delivered[|next.delivered|..];
      assert s'.delivered[|s.delivered|..] == first + second;
      Regroup(Collected(s), first, Joined(GotNow(s, e)), Collected(next), second, Joined(Reads(next, rest, s')), Collected(s'));
    }
  }

  lemma StartsWithNothing(s: State)
    requires Initial(s)
    ensures s.delivered == [] && Collected(s) == []
  {
  }

  /** From one writer to all readers: what the reads return is the beginning of what the
      writes were called with. */
  lemma WrittenIsRead(s: State, events: seq<Event>, s': State, t: nat)
    requires Initial(s) && Reaches(s, events, s') && t < |s.threads| && OnlyWriter(events, t)
    requires forall r :: r in Returns(s, events, s', t) && r.op.Write? ==> r.ok
    ensures Joined(Reads(s, events, s')) + Collected(s') <= Joined(Sources(events, t))
  {
    hide Reaches, Returns, Reads, Sources, Joined, OnlyWriter, Pending, Inv, Step, Initial, Collected;
    InitialInv(s);
    ReadsAreDelivered(s, events, s');
    OneWriter(s, events, s', t);
    StartsWithNothing(s);
    assert s'.delivered[|s.delivered|..] == s'.delivered;
  }

  // ------------------------------------------------------------------
  // The ends.

  /** A close that has done its work has closed its end. */
  predicate CloseOk(s: State, th: Thread) {
    th.op.Close? && (th.place.WakeLast? || th.place.Leaving?) ==> if th.op.writable then !s.writeopen else !s.readopen
  }

  ghost predicate ClosesOk(s: State) {
    forall t :: 0 <= t < |s.threads| ==> CloseOk(s, s.threads[t])
  }

  /** The critical section of an operation closes an end exactly if it is a close of it. */
  lemma BodyCloses(s: State, t: nat)
    requires t < |s.threads| == |s.killed| && |s.data| == PIPESIZE
    ensures var next, op := Body(s, t), s.threads[t].op;
            && |next.threads| == |s.threads|
            && (next.writeopen <==> s.writeopen && op != Close(true)) && (next.readopen <==> s.readopen && op != Close(false))
            && (if op.Close? then next.threads[t].op == op else !next.threads[t].op.Close?)
  {
    hide Full, Next, Index;
    match s.threads[t].op
    case Idle =>
    case Write(src, i) => if i >= |src| { } else if Full(s.nread, s.nwrite) { } else { }
    case Read(_, _, copying) => if copying { } else { }
    case Close(_) =>
  }

  lemma OthersClose(s: State, e: Event)
    requires |s.data| == PIPESIZE && |s.ready| == |s.threads| == |s.killed| && Enabled(s, e)
    requires !(e.Run? && s.threads[e.t].place.Critical?)
    ensures Step(s, e).writeopen == s.writeopen && Step(s, e).readopen == s.readopen
    ensures Step(s, e).nread == s.nread && Step(s, e).nwrite == s.nwrite
  {
    hide Roused, Body;
    match e
    case Call(_, _) =>
    case Kill(_) =>
    case Run(t) =>
      match s.threads[t].place
      case Entering =>
      case Woken =>
      case WakeFirst =>
      case SleepCalled =>
      case SleepBoth =>
      case SleepOne =>
      case WakeLast =>
      case Leaving(_) =>
  }

  predicate ClosesNow(s: State, e: Event, writable: bool)
    requires e.t < |s.threads|
  {
    e.Run? && s.threads[e.t].place.Critical? && s.threads[e.t].op == Close(writable)
  }

  /** An end stays closed, and only a close of it closes it. */
  lemma StepEnds(s: State, e: Event)
    requires |s.data| == PIPESIZE && |s.ready| == |s.threads| == |s.killed| && Enabled(s, e)
    ensures var next := Step(s, e);
            && (next.writeopen <==> s.writeopen && !ClosesNow(s, e, true))
            && (next.readopen <==> s.readopen && !ClosesNow(s, e, false))
  {
    hide Body, Wakeup;
    if e.Run? && s.threads[e.t].place.Critical? { BodyCloses(s, e.t); } else { OthersClose(s, e); }
  }

  lemma OwnStepCloses(s: State, e: Event)
    requires |s.data| == PIPESIZE && |s.ready| == |s.threads| == |s.killed| && Enabled(s, e) && CloseOk(s, s.threads[e.t])
    ensures |Step(s, e).threads| == |s.threads| && CloseOk(Step(s, e), Step(s, e).threads[e.t])
  {
    hide Body, Wakeup, Roused;
    if e.Run? && s.threads[e.t].place.Critical? {
      BodyCloses(s, e.t);
    } else {
      OthersClose(s, e);
      OtherSteps(s, e);
    }
  }

  lemma StepKeepsCloses(s: State, e: Event)
    requires Inv(s) && EndsOk(s) && ClosesOk(s) && Enabled(s, e)
    ensures ClosesOk(Step(s, e))
  {
    hide Step, ThreadOk, Pending, Count, AnyKilled;
    assert CloseOk(s, s.threads[e.t]);
    StepThreads(s, e);
    StepEnds(s, e);
    OwnStepCloses(s, e);
    var s' := Step(s, e);
    forall u | 0 <= u < |s'.threads| ensures CloseOk(s', s'.threads[u]) { assert CloseOk(s, s.threads[u]); }
  }

  /** Once a close of an end has returned, that end is closed. */
  lemma {:induction false} ClosedStaysClosed(s: State, events: seq<Event>, s': State, t: nat)
    requires Inv(s) && EndsOk(s) && ClosesOk(s) && Reaches(s, events, s') && t < |s.threads|
    ensures ClosesOk(s') && (s'.writeopen ==> s.writeopen) && (s'.readopen ==> s.readopen)
    ensures forall r :: r in Returns(s, events, s', t) && r.op.Close? ==> if r.op.writable then !s'.writeopen else !s'.readopen
    decreases |events|
  {
    hide Step, Enabled, Inv, EndsOk;
    if events != [] {
      var e, next := events[0], Step(s, events[0]);
      StepKeepsInv(s, e);
      StepKeepsEnds(s, e);
      StepKeepsCloses(s, e);
      StepEnds(s, e);
      StepThreads(s, e);
      ClosedStaysClosed(next, events[1..], s', t);
      assert CloseOk(s, s.threads[t]);
    }
  }

  /** A reader that finds the pipe empty after a close of the write end has returned does
      not sleep: in two steps it is done, with nothing. */
  lemma ReaderSeesEnd(s: State, events: seq<Event>, s': State, t: nat, u: nat)
    requires Initial(s) && Reaches(s, events, s') && t < |s.threads| && Ended(Close(true), true) in Returns(s, events, s', t)
    requires u < |s'.threads| && s'.threads[u].place.Critical? && s'.threads[u].op.Read? && !s'.threads[u].op.copying
    requires s'.nread == s'.nwrite
    ensures Inv(s') && Enabled(s', Run(u)) && Inv(Step(s', Run(u))) && Enabled(Step(s', Run(u)), Run(u))
    ensures var op := s'.threads[u].op;
            Step(Step(s', Run(u)), Run(u)).threads[u] == Thread(Read(op.n, [], true), WakeLast)
  {
    hide Initial, Pending, Count, Full, Next, Index, Reaches, Returns, AnyKilled;
    InitialEnds(s);
    InitialCloses(s);
    ClosedStaysClosed(s, events, s', t);
    RunKeepsInv(s, events, s');
    StepKeepsInv(s', Run(u));
    assert ThreadOk(s', u);
  }

  lemma InitialCloses(s: State)
    requires Initial(s)
    ensures ClosesOk(s)
  {
  }

  /** And the write end is open until someone is called to close it. */
  lemma {:induction false} OpenUntilClosed(s: State, events: seq<Event>, s': State)
    requires Inv(s) && Reaches(s, events, s') && s.writeopen && NoClose(s, events)
    ensures s'.writeopen
    decreases |events|
  {
    hide Step, ThreadOk, Pending, Count, AnyKilled;
    if events != [] {
      var e, next, rest := events[0], Step(s, events[0]), events[1..];
      StepKeepsInv(s, e);
      assert s.threads[e.t].op != Close(true);
      StepThreads(s, e);
      StepOps(s, e);
      StepEnds(s, e);
      forall t | 0 <= t < |next.threads| ensures next.threads[t].op != Close(true) { assert s.threads[t].op != Close(true); }
      forall f | f in rest ensures f in events { }
      OpenUntilClosed(next, rest, s');
    }
  }

  /** No thread is closing the write end, or is called to. */
  predicate NoClose(s: State, events: seq<Event>) {
    && (forall t :: 0 <= t < |s.threads| ==> s.threads[t].op != Close(true))
    && (forall e :: e in events && e.Call? ==> e.op != Close(true))
  }

  lemma StepOps(s: State, e: Event)
    requires |s.data| == PIPESIZE && |s.ready| == |s.threads| == |s.killed| && Enabled(s, e)
    ensures |Step(s, e).threads| == |s.threads|
    ensures Step(s, e).threads[e.t].op == Close(true) ==> s.threads[e.t].op == Close(true) || e == Call(e.t, Close(true))
  {
    hide Body, Wakeup, Roused;
    if e.Run? && s.threads[e.t].place.Critical? { BodyCloses(s, e.t); } else { OtherSteps(s, e); }
  }

  // ------------------------------------------------------------------
  // What a read that succeeds has found.

  /** A read that is done has as many bytes as it was asked for, or all there were; it has
      nothing only if the write end is closed. */
  predicate ReadOk(s: State, th: Thread) {
    && (th.op.Read? && th.op.copying && th.place.Critical? && th.op.got == [] ==> s.nread != s.nwrite || !s.writeopen)
    && (th.op.Read? && (th.place.WakeLast? || th.place == Leaving(true)) ==> ReadDone(s, th.op))
  }

  predicate ReadDone(s: State, op: Op)
    requires op.Read?
  {
    (|op.got| == op.n || s.nread == s.nwrite) && (op.got == [] && op.n > 0 ==> !s.writeopen)
  }

  ghost predicate ReadsOk(s: State) {
    forall t :: 0 <= t < |s.threads| ==> ReadOk(s, s.threads[t])
  }

  lemma BodyReads(s: State, t: nat)
    requires t < |s.threads| == |s.killed| && |s.data| == PIPESIZE && OpOk(s.threads[t]) && ReadOk(s, s.threads[t])
    requires s.threads[t].place.Critical?
    ensures |Body(s, t).threads| == |s.threads| && ReadOk(Body(s, t), Body(s, t).threads[t])
  {
    hide Full, Next, Index;
    match s.threads[t].op
    case Idle =>
    case Write(src, i) => if i >= |src| { } else if Full(s.nread, s.nwrite) { } else { }
    case Read(_, _, copying) => if copying { } else { }
    case Close(_) =>
  }

  lemma OthersRead(s: State, e: Event)
    requires |s.data| == PIPESIZE && |s.ready| == |s.threads| == |s.killed| && Enabled(s, e) && ReadOk(s, s.threads[e.t])
    requires OpOk(s.threads[e.t]) && !(e.Run? && s.threads[e.t].place.Critical?)
    ensures |Step(s, e).threads| == |s.threads| && ReadOk(Step(s, e), Step(s, e).threads[e.t])
  {
    hide Roused, Body;
    OthersClose(s, e);
    match e
    case Call(_, _) =>
    case Kill(_) =>
    case Run(t) =>
      match s.threads[t].place
      case Entering =>
      case Woken =>
      case WakeFirst =>
      case SleepCalled =>
      case SleepBoth =>
      case SleepOne =>
      case WakeLast =>
      case Leaving(_) =>
  }

  lemma StepKeepsReads(s: State, e: Event)
    requires Inv(s) && ReadsOk(s) && Enabled(s, e)
    ensures ReadsOk(Step(s, e))
  {
    hide Step, OpOk, SleepOk, FullOk, GotOk, Pending, Count, AnyKilled;
    var s' := Step(s, e);
    assert ThreadOk(s, e.t) && ReadOk(s, s.threads[e.t]);
    StepThreads(s, e);
    OwnStepReads(s, e);
    forall u | 0 <= u < |s'.threads| ensures ReadOk(s', s'.threads[u]) {
      assert ReadOk(s, s.threads[u]) && ThreadOk(s, u);
      if !(e.Run? && s.threads[e.t].place.Critical?) { OthersClose(s, e); }
    }
  }

  lemma OwnStepReads(s: State, e: Event)
    requires |s.data| == PIPESIZE && |s.ready| == |s.threads| == |s.killed| && Enabled(s, e) && ReadOk(s, s.threads[e.t])
    requires OpOk(s.threads[e.t])
    ensures |Step(s, e).threads| == |s.threads| && ReadOk(Step(s, e), Step(s, e).threads[e.t])
  {
    hide Body, ReadOk, OpOk;
    if e.Run? && s.threads[e.t].place.Critical? { BodyReads(s, e.t); } else { OthersRead(s, e); }
  }

  lemma {:induction false} RunKeepsReads(s: State, events: seq<Event>, s': State)
    requires Inv(s) && ReadsOk(s) && Reaches(s, events, s')
    ensures Inv(s') && ReadsOk(s')
    decreases |events|
  {
    hide Step, Enabled, ReadsOk, FifoOk, ThreadOk;
    if events != [] {
      StepKeepsInv(s, events[0]);
      StepKeepsReads(s, events[0]);
      RunKeepsReads(Step(s, events[0]), events[1..], s');
    }
  }

  /** A piperead about to return success. */
  lemma ReadReturns(s: State, events: seq<Event>, s': State, t: nat)
    requires Initial(s) && Reaches(s, events, s')
    requires t < |s'.threads| && s'.threads[t].op.Read? && s'.threads[t].place == Leaving(true)
    ensures ReadDone(s', s'.threads[t].op)
  {
    hide ReadDone;
    InitialInv(s);
    forall u | 0 <= u < |s.threads| ensures ReadOk(s, s.threads[u]) { assert s.threads[u] == Thread(Idle, Outside); }
    RunKeepsReads(s, events, s');
    assert ReadOk(s', s'.threads[t]);
  }
}
