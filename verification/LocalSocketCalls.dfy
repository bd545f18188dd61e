/**
 What the calls themselves promise: a write returns when all its bytes are published, and no
 byte is published that was not given; a read returns with as many bytes as it asked for,
 and takes all there are up to the most it wants.
 */
module LocalSocketCalls {
  import opened Basics
  import opened LocalSocket
  import opened LocalSocketPair

  // ------------------------------------------------------------------------ writing

  /** The data of all writes of a run, one after the other. */
  function Given(run: seq<Action>): seq<Byte> {
    if run == [] then []
    else Given(run[..|run| - 1]) + DataOf(run[|run| - 1])
  }

  function DataOf(a: Action): seq<Byte> { if a.StartWrite? then a.data else [] }

  /** What is published and what is still to be written is what was given; a call at its end has nothing left. */
  predicate Writes(s: State, given: seq<Byte>) {
    s.sent + s.w.src == given && (s.w.pc.WIdle? ==> s.w.src == [])
  }

  lemma {:induction false} WritesStep(s: State, a: Action, clears: bool, given: seq<Byte>)
    requires Fifo(s) && Enabled(s, a) && Writes(s, given)
    ensures Writes(Step(s, a, clears), given + DataOf(a))
  {
    if a.WriterStep? && s.w.pc.WStoreEnd? {
      assert s.sent + s.w.src == (s.sent + s.w.src[..s.w.n]) + s.w.src[s.w.n..];
    } else if a.StartWrite? {
      assert s.sent == given;
    }
  }

  // ------------------------------------------------------------------------ reading

  /** The last read: the least and the most it wants, and how much had been read before it. */
  datatype Call = Call(least: nat, most: nat, before: nat)

  /** The read that goes on, or the one that ended last. */
  function CallAfter(s: State, call: Call, a: Action): Call {
    if a.StartRead? && a.least != 0 then Call(a.least, a.most, |s.got|) else call
  }

  /** What is still wanted is what was asked for less what has come; a call at its end has got its least. */
  predicate Reads(s: State, call: Call) {
    && call.before <= |s.got| <= call.before + call.most
    && s.r.most == call.before + call.most - |s.got|
    && s.r.least == (if |s.got| <= call.before + call.least then call.before + call.least - |s.got| else 0)
    && (s.r.pc.RIdle? ==> |s.got| >= call.before + call.least)
  }

  lemma {:induction false} ReadsStep(s: State, a: Action, clears: bool, call: Call)
    requires Fifo(s) && Enabled(s, a) && Reads(s, call)
    ensures Reads(Step(s, a, clears), CallAfter(s, call, a))
  {}

  // ------------------------------------------------------------------------- rounds

  /** A round moves all that fits, up to the end of the buffer: nothing is left without need. */
  predicate FullRounds(s: State) { FullWrites(s) && FullReads(s) }

  predicate FullWrites(s: State) {
    s.w.pc.WCopy? || s.w.pc.WStoreEnd? ==>
      s.w.n == |s.w.src| || |s.sent| + s.w.n == s.sawGot + CAPACITY - 1 || s.w.end + s.w.n == CAPACITY
  }

  predicate FullReads(s: State) {
    s.r.pc.RCopy? || s.r.pc.RStoreBegin? ==>
      s.r.n == s.r.most || |s.got| + s.r.n == s.sawSent || s.r.begin + s.r.n == CAPACITY
  }

  /** The sizes computed from two positions are all there is, up to the end of the buffer. */
  lemma SizesAreAll(a: nat, b: nat)
    requires a <= b < a + CAPACITY
    ensures var n := SendSize(Pos(a), Pos(b)); n > 0 ==> b + n == a + CAPACITY - 1 || Pos(b) + n == CAPACITY
    ensures var n := RecvSize(Pos(a), Pos(b)); n > 0 ==> a + n == b || Pos(a) + n == CAPACITY
  {
    Lap(a, b);
  }

  lemma {:induction false} FullWritesStep(s: State, m: nat, clears: bool)
    requires RingOk(s) && WriterOk(s) && Enabled(s, WriterStep(m)) && FullRounds(s)
    ensures FullRounds(WriterNext(s, m, clears))
  {
    if s.w.pc.WClearFlag? { SizesAreAll(s.sawGot, |s.sent|); }
  }

  lemma {:induction false} FullReadsStep(s: State, m: nat)
    requires RingOk(s) && ReaderOk(s) && Enabled(s, ReaderStep(m)) && FullRounds(s)
    ensures FullRounds(ReaderNext(s, m))
  {
    if s.r.pc.RClearFlag? { SizesAreAll(|s.got|, s.sawSent); }
  }

  lemma {:induction false} FullRoundsStep(s: State, a: Action, clears: bool)
    requires Fifo(s) && Enabled(s, a) && FullRounds(s)
    ensures FullRounds(Step(s, a, clears))
  {
    match a
    case WriterStep(m) => FullWritesStep(s, m, clears);
    case ReaderStep(m) => FullReadsStep(s, m);
    case _ =>
  }

  // ------------------------------------------------------------------- whole runs

  lemma StepKeepsFifo(s: State, a: Action, clears: bool)
    requires Fifo(s) && Enabled(s, a)
    ensures Fifo(Step(s, a, clears))
  {
    match a
    case WriterStep(m) => WriterKeepsFifo(s, m, clears);
    case ReaderStep(m) => ReaderKeepsFifo(s, m);
    case _ => StartKeepsFifo(s, a, clears);
  }

  lemma {:induction false} RunSnoc(s: State, run: seq<Action>, clears: bool)
    requires run != [] && CanRun(s, run, clears)
    ensures CanRun(s, run[..|run| - 1], clears)
    ensures var s1, a := Run(s, run[..|run| - 1], clears), run[|run| - 1];
            Enabled(s1, a) && Run(s, run, clears) == Step(s1, a, clears)
    decreases |run|
  {
    if |run| == 1 {
      assert run[1..] == [] && run[..0] == [];
    } else {
      var rest := run[1..];
      RunSnoc(Step(s, run[0], clears), rest, clears);
      assert rest[..|rest| - 1] == run[..|run| - 1][1..] && run[..|run| - 1][0] == run[0];
    }
  }

  /** The read of a run that goes on, or the one that ended last. */
  function LastRead(s: State, run: seq<Action>, clears: bool): Call
    requires CanRun(s, run, clears)
    decreases |run|
  {
    if run == [] then Call(0, 0, |s.got|)
    else
      RunSnoc(s, run, clears);
      var before := run[..|run| - 1];
      CallAfter(Run(s, before, clears), LastRead(s, before, clears), run[|run| - 1])
  }

  lemma {:induction false} RunCalls(run: seq<Action>, clears: bool)
    requires CanRun(Initial(), run, clears)
    ensures var s := Run(Initial(), run, clears);
            Fifo(s) && Writes(s, Given(run)) && Reads(s, LastRead(Initial(), run, clears)) && FullRounds(s)
    decreases |run|
  {
    if run == [] {
      InitialOk();
    } else {
      var before, a := run[..|run| - 1], run[|run| - 1];
      RunSnoc(Initial(), run, clears);
      RunCalls(before, clears);
      var s := Run(Initial(), before, clears);
      StepKeepsFifo(s, a, clears);
      WritesStep(s, a, clears, Given(before));
      ReadsStep(s, a, clears, LastRead(Initial(), before, clears));
      FullRoundsStep(s, a, clears);
    }
  }

  /** When no write is under way, exactly what was given to all writes has been published, in order. */
  lemma {:induction false} WritesDeliver(run: seq<Action>, clears: bool)
    requires CanRun(Initial(), run, clears)
    ensures var s := Run(Initial(), run, clears);
            s.sent <= Given(run) && (s.w.pc.WIdle? ==> s.sent == Given(run))
  {
    RunCalls(run, clears);
    WriteEnded(Run(Initial(), run, clears), Given(run));
  }

  /** A read that has returned has got between the least and the most it asked for, of what was given. */
  lemma {:induction false} ReadsDeliver(run: seq<Action>, clears: bool)
    requires CanRun(Initial(), run, clears)
    ensures var s, call := Run(Initial(), run, clears), LastRead(Initial(), run, clears);
            && call.before <= |s.got| <= call.before + call.most
            && (s.r.pc.RIdle? ==> |s.got| >= call.before + call.least)
            && s.got <= Given(run)
  {
    RunCalls(run, clears);
    var s := Run(Initial(), run, clears);
    assert s.got <= s.sent <= Given(run);
  }

  // -------------------------------------------------------------- both directions

  /** The data given to direction `d`. */
  function GivenTo(xs: seq<Act>, d: Dir): seq<Byte> {
    if xs == [] then []
    else GivenTo(xs[..|xs| - 1], d) + if xs[|xs| - 1].d == d then DataOf(xs[|xs| - 1].a) else []
  }

  lemma {:induction false} DoSnoc(p: Pair, xs: seq<Act>, asWritten: bool)
    requires xs != [] && CanDo(p, xs, asWritten)
    ensures CanDo(p, xs[..|xs| - 1], asWritten)
    ensures var q, x := DoAll(p, xs[..|xs| - 1], asWritten), xs[|xs| - 1];
            Can(q, x) && DoAll(p, xs, asWritten) == Do(q, x, asWritten)
    decreases |xs|
  {
    if |xs| == 1 {
      assert xs[1..] == [] && xs[..0] == [];
    } else {
      var rest := xs[1..];
      DoSnoc(Do(p, xs[0], asWritten), rest, asWritten);
      assert rest[..|rest| - 1] == xs[..|xs| - 1][1..] && xs[..|xs| - 1][0] == xs[0];
    }
  }

  lemma WriteEnded(s: State, given: seq<Byte>)
    requires Writes(s, given)
    ensures s.sent <= given && (s.w.pc.WIdle? ==> s.sent == given)
  {
    assert s.w.pc.WIdle? ==> s.sent + [] == s.sent;
  }

  lemma {:induction false} WritesEitherWay(xs: seq<Act>, asWritten: bool, d: Dir)
    requires CanDo(Start(), xs, asWritten)
    ensures Writes(Get(DoAll(Start(), xs, asWritten), d), GivenTo(xs, d))
    decreases |xs|
  {
    if xs != [] {
      var before, x := xs[..|xs| - 1], xs[|xs| - 1];
      DoSnoc(Start(), xs, asWritten);
      WritesEitherWay(before, asWritten, d);
      InitialOk();
      FifoEitherWay(Start(), before, asWritten);
      WritesDo(DoAll(Start(), before, asWritten), x, asWritten, d, GivenTo(before, d));
    }
  }

  lemma WritesDo(p: Pair, x: Act, asWritten: bool, d: Dir, given: seq<Byte>)
    requires Can(p, x) && Fifo(Get(p, d)) && Writes(Get(p, d), given)
    ensures Writes(Get(Do(p, x, asWritten), d), given + if x.d == d then DataOf(x.a) else [])
  {
    if x.d == d { WritesStep(Get(p, d), x.a, !asWritten, given); } else { assert given + [] == given; }
  }

  /** Whichever flag is cleared, a write that returns has published all its bytes. */
  lemma {:induction false} WritesDeliverEitherWay(xs: seq<Act>, asWritten: bool, d: Dir)
    requires CanDo(Start(), xs, asWritten)
    ensures var s := Get(DoAll(Start(), xs, asWritten), d);
            s.sent <= GivenTo(xs, d) && (s.w.pc.WIdle? ==> s.sent == GivenTo(xs, d))
  {
    WritesEitherWay(xs, asWritten, d);
    WriteEnded(Get(DoAll(Start(), xs, asWritten), d), GivenTo(xs, d));
  }
}
