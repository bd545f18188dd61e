/**
 What the flag cleared by mistake does to the promise of wake-ups, exactly. A writer that wakes
 up clears the send flag of the ring its end reads from. That loses a wake-up of the peer's
 writer exactly if that writer has seen the ring full and nothing but the flag can get it going.
 */
module LocalSocketWake {
  import opened Basics
  import opened LocalSocket
  import opened LocalSocketPair

  /** The writer has seen, or is about to see, the ring as full as it gets. */
  predicate SeesFull(s: State) {
    || (s.w.pc.WLoadBegin? && |s.sent| == |s.got| + CAPACITY - 1)
    || ((s.w.pc.WLoadEnd? || s.w.pc.WDecide? || s.w.pc.WWait?) && |s.sent| == s.sawGot + CAPACITY - 1)
  }

  /** Only its flag will get the writer going: its event is not set, and no reader is at setting it. */
  predicate Exposed(s: State) { SeesFull(s) && !s.c.rtt && !s.r.pc.RSignal? }

  // ------------------------------------------------- what does not need the send flag

  predicate ReaderFlag(s: State) { s.c.recvWaitFlag <==> s.r.pc.Flagged() }

  predicate ReaderWakes(s: State) {
    (s.r.pc.RDecide? || s.r.pc.RWait?) && s.sawSent == |s.got| && |s.sent| > |s.got| ==> s.c.rd || WriterWillSignal(s)
  }

  /** Order of bytes, and the wake-ups of the reader. */
  ghost predicate Core(s: State) { Fifo(s) && ReaderFlag(s) && ReaderWakes(s) }

  // ------------------------------------------------------- what the send flag is for

  predicate WriterWakes(s: State) {
    (s.w.pc.WLoadEnd? || s.w.pc.WDecide? || s.w.pc.WWait?) && |s.sent| == s.sawGot + CAPACITY - 1 && |s.got| > s.sawGot ==>
      s.c.rtt || ReaderWillSignal(s)
  }

  /** Wake-ups of the writer: an exposed writer has its flag set. */
  predicate WriterPart(s: State) { WriterWakes(s) && (Exposed(s) ==> s.c.sendWaitFlag) }

  ghost predicate Safe(s: State) { Core(s) && WriterPart(s) }

  lemma InvIsSafe(s: State)
    requires Inv(s)
    ensures Safe(s)
  {}

  lemma {:induction false} ReaderPartStep(s: State, a: Action, clears: bool)
    requires ReaderFlag(s) && ReaderWakes(s) && Enabled(s, a) && |s.got| <= |s.sent|
    ensures ReaderFlag(Step(s, a, clears)) && ReaderWakes(Step(s, a, clears))
  {
    match a
    case WriterStep(m) => WriterKeepsReaderPart(s, m, clears);
    case ReaderStep(m) => ReaderKeepsReaderPart(s, m);
    case _ =>
  }

  lemma {:induction false} WriterKeepsReaderPart(s: State, m: nat, clears: bool)
    requires ReaderFlag(s) && ReaderWakes(s) && Enabled(s, WriterStep(m))
    ensures ReaderFlag(WriterNext(s, m, clears)) && ReaderWakes(WriterNext(s, m, clears))
  {
    if !s.w.pc.WStoreEnd? { assert WriterNext(s, m, clears).sent == s.sent; }
  }

  lemma {:induction false} ReaderKeepsReaderPart(s: State, m: nat)
    requires ReaderFlag(s) && ReaderWakes(s) && Enabled(s, ReaderStep(m)) && |s.got| <= |s.sent|
    ensures ReaderFlag(ReaderNext(s, m)) && ReaderWakes(ReaderNext(s, m))
  {
    if !s.r.pc.RStoreBegin? { assert ReaderNext(s, m).got == s.got; }
  }

  lemma {:induction false} FifoStep(s: State, a: Action, clears: bool)
    requires Fifo(s) && Enabled(s, a)
    ensures Fifo(Step(s, a, clears))
  {
    match a
    case WriterStep(m) => WriterKeepsFifo(s, m, clears);
    case ReaderStep(m) => ReaderKeepsFifo(s, m);
    case _ => StartKeepsFifo(s, a, clears);
  }

  lemma {:induction false} CoreStep(s: State, a: Action, clears: bool)
    requires Core(s) && Enabled(s, a)
    ensures Core(Step(s, a, clears))
  {
    FifoStep(s, a, clears);
    ReaderPartStep(s, a, clears);
  }

  lemma {:induction false} WriterKeepsWriterPart(s: State, m: nat, clears: bool)
    requires WriterPart(s) && Enabled(s, WriterStep(m))
    ensures WriterPart(WriterNext(s, m, clears))
  {
    if !s.w.pc.WStoreEnd? { assert WriterNext(s, m, clears).sent == s.sent; }
  }

  lemma {:induction false} ReaderKeepsWriterPart(s: State, m: nat)
    requires WriterPart(s) && Enabled(s, ReaderStep(m)) && |s.sent| < |s.got| + CAPACITY
    ensures WriterPart(ReaderNext(s, m))
  {
    if !s.r.pc.RStoreBegin? { assert ReaderNext(s, m).got == s.got; }
  }

  lemma {:induction false} SafeStep(s: State, a: Action, clears: bool)
    requires Safe(s) && Enabled(s, a)
    ensures Safe(Step(s, a, clears))
  {
    CoreStep(s, a, clears);
    match a
    case WriterStep(m) => WriterKeepsWriterPart(s, m, clears);
    case ReaderStep(m) => ReaderKeepsWriterPart(s, m);
    case _ =>
  }

  lemma CoreClear(s: State)
    requires Core(s)
    ensures Core(ClearSendFlag(s))
  {
    ClearKeepsFifo(s);
  }

  lemma SafePromise(s: State)
    requires Safe(s)
    ensures Promise(s)
  {
    WaitersSeeTruth(s);
  }

  // ------------------------------------------------------------- runs as written

  /** A wake-up that clears the flag of an exposed writer. */
  predicate Hurts(p: Pair, x: Act) { WakesUp(p, x) && Exposed(Get(p, Other(x.d))) }

  /** No wake-up of the run does. */
  predicate Careful(p: Pair, xs: seq<Act>)
    requires CanDo(p, xs, true)
    decreases |xs|
  {
    xs == [] || (!Hurts(p, xs[0]) && Careful(Do(p, xs[0], true), xs[1..]))
  }

  ghost predicate BothSafe(p: Pair) { Safe(p.ab) && Safe(p.ba) }

  lemma {:induction false} CarefulStep(p: Pair, x: Act)
    requires BothSafe(p) && Can(p, x) && !Hurts(p, x)
    ensures BothSafe(Do(p, x, true))
  {
    var s, t := Get(p, x.d), Get(p, Other(x.d));
    SafeStep(s, x.a, false);
    var q := Do(p, x, true);
    assert Get(q, x.d) == Step(s, x.a, false);
    if WakesUp(p, x) {
      CoreClear(t);
      assert Get(q, Other(x.d)) == ClearSendFlag(t);
    } else {
      assert Get(q, Other(x.d)) == t;
    }
  }

  /**
   As written, both directions keep the promise in every run in which no writer wakes up while
   the writer of its peer is exposed.
   */
  lemma {:induction false} CarefulRunsKeepPromise(p: Pair, xs: seq<Act>)
    requires BothSafe(p) && CanDo(p, xs, true) && Careful(p, xs)
    ensures var q := DoAll(p, xs, true); BothSafe(q) && Promise(q.ab) && Promise(q.ba)
    decreases |xs|
  {
    if xs == [] {
      SafePromise(p.ab);
      SafePromise(p.ba);
    } else {
      CarefulStep(p, xs[0]);
      CarefulRunsKeepPromise(Do(p, xs[0], true), xs[1..]);
    }
  }

  lemma StartIsSafe()
    ensures BothSafe(Start())
  {
    InitialOk();
    InvIsSafe(Initial());
  }

  // --------------------------------------------- how an exposed writer is lost for good

  /** An exposed writer without its flag. */
  ghost predicate Doomed(s: State) { Core(s) && Exposed(s) && !s.c.sendWaitFlag }

  /** A run of one direction in which its writer does not wake up. */
  predicate Calm(s: State, run: seq<Action>)
    decreases |run|
  {
    run == [] ||
    (Enabled(s, run[0]) && !(run[0].WriterStep? && s.w.pc.WWoken?) && Calm(Step(s, run[0], false), run[1..]))
  }

  function After(s: State, run: seq<Action>): State
    requires Calm(s, run)
    decreases |run|
  {
    if run == [] then s else After(Step(s, run[0], false), run[1..])
  }

  /** Steps until the writer waits, then steps until the reader has given bytes free. */
  function WriterRank(s: State): nat {
    match s.w.pc
    case WLoadBegin => 3
    case WLoadEnd => 2
    case WDecide => 1
    case _ => 0
  }

  function ReaderRank(s: State): nat {
    match s.r.pc
    case RStoreBegin => 1
    case RCopy => if |s.r.dst| >= s.r.n then 2 else 3
    case RClearFlag => 4
    case RDecide => if s.sawSent > |s.got| then 5 else 11
    case RLoadEnd => 6
    case RLoadBegin => 7
    case RSetFlag => 8
    case RIdle => 9
    case RWoken => 9
    case RWait => 10
    case RCheckFlag => 12
    case RSignal => 13
  }

  /** The next step on the way into the trap. */
  function Trap(s: State): Action {
    if !s.w.pc.WWait? then WriterStep(0)
    else if s.r.pc.RIdle? then StartRead(1, 1)
    else ReaderStep(if s.r.pc.RCopy? && |s.r.dst| < s.r.n then s.r.n - |s.r.dst| else 0)
  }

  /** As long as the ring is full its reader can go on, and comes nearer to giving bytes free. */
  lemma {:induction false} TrapStep(s: State)
    requires Doomed(s) && !Lost(s)
    ensures Enabled(s, Trap(s)) && !(Trap(s).WriterStep? && s.w.pc.WWoken?)
    ensures var t := Step(s, Trap(s), false);
            Doomed(t) && (WriterRank(t) < WriterRank(s) || (WriterRank(t) == WriterRank(s) && ReaderRank(t) < ReaderRank(s)) || Lost(t))
  {
    WaitersSeeTruth(s);
    if !s.w.pc.WWait? { WriterTrapStep(s); } else { ReaderTrapStep(s); }
  }

  lemma {:induction false} WriterTrapStep(s: State)
    requires Doomed(s) && !s.w.pc.WWait?
    ensures Enabled(s, WriterStep(0)) && !s.w.pc.WWoken?
    ensures var t := WriterNext(s, 0, false); Doomed(t) && WriterRank(t) < WriterRank(s)
  {
    CoreStep(s, WriterStep(0), false);
    if s.w.pc.WDecide? { FullExactly(s.sawGot, |s.sent|); }
  }

  lemma {:induction false} ReaderTrapStep(s: State)
    requires Doomed(s) && s.w.pc.WWait? && !Lost(s)
    ensures Enabled(s, Trap(s))
    ensures var t := Step(s, Trap(s), false); Doomed(t) && t.w == s.w && (ReaderRank(t) < ReaderRank(s) || Lost(t))
  {
    WaitersSeeTruth(s);
    TrapEnabled(s);
    CoreStep(s, Trap(s), false);
    TrapCloser(s);
  }

  lemma {:induction false} TrapEnabled(s: State)
    requires Doomed(s) && s.w.pc.WWait? && |s.got| < |s.sent| && (s.r.pc.RWait? ==> s.sawSent == |s.got|)
    ensures Enabled(s, Trap(s))
  {}

  lemma {:induction false} TrapCloser(s: State)
    requires Fifo(s) && Exposed(s) && !s.c.sendWaitFlag && s.w.pc.WWait? && !Lost(s) && Enabled(s, Trap(s))
    ensures var t := Step(s, Trap(s), false);
            && t.w == s.w && Exposed(t) && !t.c.sendWaitFlag && (ReaderRank(t) < ReaderRank(s) || Lost(t))
  {
    if s.r.pc.RDecide? { FullExactly(|s.got|, s.sawSent); }
  }

  /** So it is lost for good, by the steps of its own direction alone. */
  lemma {:induction false} DoomedIsLost(s: State) returns (run: seq<Action>)
    requires Doomed(s)
    ensures Calm(s, run) && Lost(After(s, run))
    decreases if Lost(s) then 0 else 1, WriterRank(s), ReaderRank(s)
  {
    if Lost(s) {
      run := [];
    } else {
      TrapStep(s);
      var rest := DoomedIsLost(Step(s, Trap(s), false));
      run := [Trap(s)] + rest;
      assert run[1..] == rest;
    }
  }

  function Lifted(d: Dir, run: seq<Action>): (xs: seq<Act>)
    ensures |xs| == |run|
  {
    if run == [] then [] else [Act(d, run[0])] + Lifted(d, run[1..])
  }

  /** A calm run of one direction is a careful run of the pair that leaves the other direction alone. */
  lemma {:induction false} CalmLifts(p: Pair, d: Dir, run: seq<Action>)
    requires Calm(Get(p, d), run)
    ensures var xs := Lifted(d, run);
            CanDo(p, xs, true) && Careful(p, xs) && DoAll(p, xs, true) == Put(p, d, After(Get(p, d), run))
    decreases |run|
  {
    if run != [] {
      var q := Do(p, Act(d, run[0]), true);
      assert q == Put(p, d, Step(Get(p, d), run[0], false));
      CalmLifts(q, d, run[1..]);
      assert Lifted(d, run)[1..] == Lifted(d, run[1..]);
    }
  }

  /** Some run without another harmful wake-up loses a wake-up for good. */
  ghost predicate CanLose(p: Pair) {
    exists xs :: CanDo(p, xs, true) && Careful(p, xs) && LosesIn(p, xs)
  }

  predicate LosesIn(p: Pair, xs: seq<Act>)
    requires CanDo(p, xs, true)
  {
    Lost(DoAll(p, xs, true).ab) || Lost(DoAll(p, xs, true).ba)
  }

  lemma LostBreaksPromise(s: State)
    requires Lost(s)
    ensures !Promise(s)
  {}

  /**
   The line as written, exactly: after a wake-up some run loses a wake-up for good if and only
   if the peer's writer was exposed when its flag was cleared.
   */
  lemma {:induction false} WakeAsWrittenExact(p: Pair, d: Dir, m: nat)
    requires BothSafe(p) && Get(p, d).w.pc.WWoken?
    ensures CanLose(Do(p, Act(d, WriterStep(m)), true)) <==> Exposed(Get(p, Other(d)))
  {
    var x := Act(d, WriterStep(m));
    var q := Do(p, x, true);
    if Exposed(Get(p, Other(d))) {
      CoreClear(Get(p, Other(d)));
      assert Get(q, Other(d)) == ClearSendFlag(Get(p, Other(d)));
      var run := DoomedIsLost(Get(q, Other(d)));
      CalmLifts(q, Other(d), run);
      assert LosesIn(q, Lifted(Other(d), run));
    } else {
      CarefulStep(p, x);
      forall xs | CanDo(q, xs, true) && Careful(q, xs) ensures !LosesIn(q, xs) {
        CarefulRunsKeepPromise(q, xs);
      }
    }
  }
}
