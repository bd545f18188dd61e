/**
 Both directions of a local socket. Each end writes into one ring and reads from the other.
 When a writer wakes up, the program clears the send flag of the ring it reads from instead
 of its own. With the own flag cleared both directions are safe; as written, a wake-up can be
 lost for good, even if no end ever does two things at a time.
 */
module LocalSocketPair {
  import opened Basics
  import opened LocalSocket

  /** End A writes into `ab` and reads from `ba`; end B the other way round. */
  datatype Pair = Pair(ab: State, ba: State)

  /** The direction from A to B, or from B to A. */
  datatype Dir = AB | BA

  function Other(d: Dir): Dir { if d.AB? then BA else AB }

  function Get(p: Pair, d: Dir): State { if d.AB? then p.ab else p.ba }

  function Put(p: Pair, d: Dir, s: State): Pair { if d.AB? then p.(ab := s) else p.(ba := s) }

  function ClearSendFlag(s: State): State { s.(c := s.c.(sendWaitFlag := false)) }

  datatype Act = Act(d: Dir, a: Action)

  predicate Can(p: Pair, x: Act) { Enabled(Get(p, x.d), x.a) }

  predicate WakesUp(p: Pair, x: Act) { x.a.WriterStep? && Get(p, x.d).w.pc.WWoken? }

  /** One action; `asWritten` selects which send flag a woken writer clears. */
  function Do(p: Pair, x: Act, asWritten: bool): Pair
    requires Can(p, x)
  {
    var q := Put(p, x.d, Step(Get(p, x.d), x.a, !asWritten));
    if asWritten && WakesUp(p, x) then Put(q, Other(x.d), ClearSendFlag(Get(q, Other(x.d)))) else q
  }

  /** No end is inside a write and a read at once. */
  predicate SingleThreaded(p: Pair) {
    && (p.ab.w.pc.WIdle? || p.ba.r.pc.RIdle?)
    && (p.ba.w.pc.WIdle? || p.ab.r.pc.RIdle?)
  }

  predicate CanDo(p: Pair, xs: seq<Act>, asWritten: bool)
    decreases |xs|
  {
    xs == [] || (Can(p, xs[0]) && CanDo(Do(p, xs[0], asWritten), xs[1..], asWritten))
  }

  function DoAll(p: Pair, xs: seq<Act>, asWritten: bool): Pair
    requires CanDo(p, xs, asWritten)
    decreases |xs|
  {
    if xs == [] then p else DoAll(Do(p, xs[0], asWritten), xs[1..], asWritten)
  }

  function Start(): Pair { Pair(Initial(), Initial()) }

  // ------------------------------------------------------------ the intended flag

  /** With the intended flag both directions keep all promises of a single one. */
  lemma {:induction false} IntendedIsSafe(p: Pair, xs: seq<Act>)
    requires Inv(p.ab) && Inv(p.ba) && CanDo(p, xs, false)
    ensures Inv(DoAll(p, xs, false).ab) && Inv(DoAll(p, xs, false).ba)
    decreases |xs|
  {
    if xs != [] {
      StepKeeps(Get(p, xs[0].d), xs[0].a, true);
      IntendedIsSafe(Do(p, xs[0], false), xs[1..]);
    }
  }

  // -------------------------------------------------------------------- as written

  lemma {:induction false} ClearKeepsFifo(s: State)
    requires Fifo(s)
    ensures Fifo(ClearSendFlag(s))
  {
    RingFrame(s, ClearSendFlag(s));
    ReaderFrame(s, ClearSendFlag(s));
    WriterFrame(s, ClearSendFlag(s));
  }

  /** Bytes are never lost or reordered, whichever flag is cleared. */
  lemma {:induction false} FifoEitherWay(p: Pair, xs: seq<Act>, asWritten: bool)
    requires Fifo(p.ab) && Fifo(p.ba) && CanDo(p, xs, asWritten)
    ensures Fifo(DoAll(p, xs, asWritten).ab) && Fifo(DoAll(p, xs, asWritten).ba)
    decreases |xs|
  {
    if xs != [] {
      var x := xs[0];
      match x.a {
        case WriterStep(m) => WriterKeepsFifo(Get(p, x.d), m, !asWritten);
        case ReaderStep(m) => ReaderKeepsFifo(Get(p, x.d), m);
        case _ => StartKeepsFifo(Get(p, x.d), x.a, !asWritten);
      }
      if asWritten && WakesUp(p, x) { ClearKeepsFifo(Get(p, Other(x.d))); }
      FifoEitherWay(Do(p, x, asWritten), xs[1..], asWritten);
    }
  }

  lemma {:induction false} StartKeepsFifo(s: State, a: Action, clears: bool)
    requires Fifo(s) && Enabled(s, a) && (a.StartWrite? || a.StartRead?)
    ensures Fifo(Step(s, a, clears))
  {
    RingFrame(s, Step(s, a, clears));
    if a.StartWrite? { ReaderFrame(s, Step(s, a, clears)); } else { WriterFrame(s, Step(s, a, clears)); }
  }

  // ----------------------------------------------------------- the lost wake-up

  /** The writer waits on a ring with room in it, and its reader does not know. */
  predicate Lost(s: State) {
    && s.w.pc.WWait? && !s.c.rtt && !s.c.sendWaitFlag && !s.r.pc.RSignal?
    && |s.sent| < |s.got| + CAPACITY - 1
  }

  /** Nothing that either end does gets a lost writer going again. */
  lemma {:induction false} LostForever(p: Pair, d: Dir, xs: seq<Act>)
    requires Lost(Get(p, d)) && CanDo(p, xs, true)
    ensures var q := DoAll(p, xs, true); Lost(Get(q, d)) && Get(q, d).w == Get(p, d).w
    decreases |xs|
  {
    if xs != [] { LostForever(Do(p, xs[0], true), d, xs[1..]); }
  }

  /** Reachable as written, by single-threaded ends. */
  ghost predicate Reached(p: Pair) {
    exists xs :: CanDoSingly(Start(), xs) && DoAll(Start(), xs, true) == p
  }

  predicate CanDoSingly(p: Pair, xs: seq<Act>)
    ensures CanDoSingly(p, xs) ==> CanDo(p, xs, true)
    decreases |xs|
  {
    SingleThreaded(p) && (xs == [] || (Can(p, xs[0]) && CanDoSingly(Do(p, xs[0], true), xs[1..])))
  }

  lemma {:induction false} Snoc(p: Pair, xs: seq<Act>, x: Act)
    requires CanDoSingly(p, xs) && Can(DoAll(p, xs, true), x) && SingleThreaded(Do(DoAll(p, xs, true), x, true))
    ensures CanDoSingly(p, xs + [x]) && DoAll(p, xs + [x], true) == Do(DoAll(p, xs, true), x, true)
    decreases |xs|
  {
    if xs == [] {
      assert [x][1..] == [];
      assert CanDoSingly(Do(p, x, true), []);
      assert xs + [x] == [x];
    } else {
      Snoc(Do(p, xs[0], true), xs[1..], x);
      assert (xs + [x])[1..] == xs[1..] + [x];
    }
  }

  lemma {:induction false} EndsSingle(p: Pair, xs: seq<Act>)
    requires CanDoSingly(p, xs)
    ensures SingleThreaded(DoAll(p, xs, true))
    decreases |xs|
  {
    if xs != [] { EndsSingle(Do(p, xs[0], true), xs[1..]); }
  }

  lemma ReachedSingle(p: Pair)
    requires Reached(p)
    ensures SingleThreaded(p)
  {
    var xs :| CanDoSingly(Start(), xs) && DoAll(Start(), xs, true) == p;
    EndsSingle(Start(), xs);
  }

  lemma Next(p: Pair, x: Act) returns (q: Pair)
    requires Reached(p) && Can(p, x) && SingleThreaded(Do(p, x, true))
    ensures q == Do(p, x, true) && Reached(q)
  {
    q := Do(p, x, true);
    var xs :| CanDoSingly(Start(), xs) && DoAll(Start(), xs, true) == p;
    Snoc(Start(), xs, x);
  }

  /** One direction moves on; the other is left alone. */
  ghost predicate Moved(p: Pair, d: Dir, t: State, q: Pair) {
    Reached(q) && Get(q, d) == t && Get(q, Other(d)) == Get(p, Other(d))
  }

  lemma WriterMoves(p: Pair, d: Dir, m: nat) returns (q: Pair)
    requires Reached(p) && Enabled(Get(p, d), WriterStep(m)) && !Get(p, d).w.pc.WWoken?
    ensures Moved(p, d, WriterNext(Get(p, d), m, false), q)
  {
    ReachedSingle(p);
    q := Next(p, Act(d, WriterStep(m)));
  }

  lemma ReaderMoves(p: Pair, d: Dir, m: nat) returns (q: Pair)
    requires Reached(p) && Enabled(Get(p, d), ReaderStep(m))
    ensures Moved(p, d, ReaderNext(Get(p, d), m), q)
  {
    ReachedSingle(p);
    q := Next(p, Act(d, ReaderStep(m)));
  }

  /** A woken writer of `d` clears the flag of the ring its end reads from. */
  lemma WriterWakes(p: Pair, d: Dir) returns (q: Pair)
    requires Reached(p) && Get(p, d).w.pc.WWoken?
    ensures Reached(q) && Get(q, d) == Get(p, d).(w := Get(p, d).w.(pc := WSetFlag))
    ensures Get(q, Other(d)) == ClearSendFlag(Get(p, Other(d)))
  {
    ReachedSingle(p);
    q := Next(p, Act(d, WriterStep(0)));
  }

  lemma BeginWrite(p: Pair, d: Dir, data: seq<Byte>) returns (q: Pair)
    requires Reached(p) && Get(p, d).w.pc.WIdle? && data != [] && Get(p, Other(d)).r.pc.RIdle?
    ensures Moved(p, d, Get(p, d).(w := Get(p, d).w.(pc := WSetFlag, src := data)), q)
  {
    ReachedSingle(p);
    q := Next(p, Act(d, StartWrite(data)));
  }

  lemma BeginRead(p: Pair, d: Dir, n: nat) returns (q: Pair)
    requires Reached(p) && Get(p, d).r.pc.RIdle? && n > 0 && Get(p, Other(d)).w.pc.WIdle?
    ensures Moved(p, d, Get(p, d).(r := Get(p, d).r.(pc := RSetFlag, least := n, most := n)), q)
  {
    ReachedSingle(p);
    q := Next(p, Act(d, StartRead(n, n)));
  }

  /** The writer of `d` looks at the ring, ready to decide. */
  lemma LookToWrite(p: Pair, d: Dir) returns (q: Pair)
    requires Reached(p) && Get(p, d).w.pc.WSetFlag?
    ensures Moved(p, d, Get(q, d), q)
    ensures var s, t := Get(p, d), Get(q, d);
            && t.c == s.c.(sendWaitFlag := true) && t.r == s.r
            && t.w == s.w.(pc := WDecide, begin := s.c.dataBeg, end := s.c.dataEnd)
  {
    q := WriterMoves(p, d, 0);
    q := WriterMoves(q, d, 0);
    q := WriterMoves(q, d, 0);
  }

  /** A write that finds room for all its bytes copies them. */
  lemma CopyAll(p: Pair, d: Dir) returns (q: Pair)
    requires Reached(p) && Get(p, d).w.pc.WSetFlag?
    requires var s := Get(p, d); 0 < |s.w.src| <= SendSize(s.c.dataBeg, s.c.dataEnd)
    ensures Moved(p, d, Get(q, d), q)
    ensures var s, t := Get(p, d), Get(q, d);
            && t.w == s.w.(pc := WStoreEnd, begin := s.c.dataBeg, end := s.c.dataEnd, n := |s.w.src|, k := |s.w.src|)
            && t.r == s.r
            && t.c == s.c.(sendWaitFlag := false, dataBuf := t.c.dataBuf) && |t.c.dataBuf| == |s.c.dataBuf|
  {
    q := LookToWrite(p, d);
    q := WriterMoves(q, d, 0);
    q := WriterMoves(q, d, 0);
    q := WriterMoves(q, d, |Get(p, d).w.src|);
    q := WriterMoves(q, d, 0);
  }

  /** A write that finds room for all its bytes, and no reader waiting, runs to its end. */
  lemma FinishWrite(p: Pair, d: Dir) returns (q: Pair)
    requires Reached(p) && Get(p, d).w.pc.WSetFlag?
    requires var s := Get(p, d); 0 < |s.w.src| <= SendSize(s.c.dataBeg, s.c.dataEnd) && !s.c.recvWaitFlag
    ensures Moved(p, d, Get(q, d), q)
    ensures var s, t := Get(p, d), Get(q, d);
            && t.w.pc.WIdle? && t.r == s.r && |t.c.dataBuf| == |s.c.dataBuf|
            && t.c == s.c.(sendWaitFlag := false, dataEnd := Turned(s.c.dataEnd + |s.w.src|), dataBuf := t.c.dataBuf)
  {
    q := CopyAll(p, d);
    q := WriterMoves(q, d, 0);
    q := WriterMoves(q, d, 0);
  }

  /** A write into a full ring waits. */
  lemma BlockWrite(p: Pair, d: Dir) returns (q: Pair)
    requires Reached(p) && Get(p, d).w.pc.WSetFlag?
    requires SendSize(Get(p, d).c.dataBeg, Get(p, d).c.dataEnd) <= 0
    ensures Moved(p, d, Get(q, d), q)
    ensures var s, t := Get(p, d), Get(q, d);
            && t.c == s.c.(sendWaitFlag := true) && t.r == s.r && t.w.pc.WWait? && t.w.src == s.w.src
  {
    q := LookToWrite(p, d);
    q := WriterMoves(q, d, 0);
  }

  /** The reader of one byte looks at the ring, ready to decide. */
  lemma LookToRead(p: Pair, d: Dir) returns (q: Pair)
    requires Reached(p) && Get(p, d).r.pc.RIdle? && Get(p, Other(d)).w.pc.WIdle?
    ensures Moved(p, d, Get(q, d), q)
    ensures var s, t := Get(p, d), Get(q, d);
            && t.w == s.w && t.c == s.c.(recvWaitFlag := true)
            && t.r == s.r.(pc := RDecide, least := 1, most := 1, begin := s.c.dataBeg, end := s.c.dataEnd)
  {
    q := BeginRead(p, d, 1);
    q := ReaderMoves(q, d, 0);
    q := ReaderMoves(q, d, 0);
    q := ReaderMoves(q, d, 0);
  }

  /** One byte is read from the ring, but not given free yet. */
  lemma TakeOne(p: Pair, d: Dir) returns (q: Pair)
    requires Reached(p) && Get(p, d).r.pc.RIdle? && Get(p, Other(d)).w.pc.WIdle?
    requires var c := Get(p, d).c; RecvSize(c.dataBeg, c.dataEnd) > 0 && c.dataBeg < |c.dataBuf|
    ensures Moved(p, d, Get(q, d), q)
    ensures var s, t := Get(p, d), Get(q, d);
            && t.w == s.w && t.c == s.c.(recvWaitFlag := false)
            && t.r.pc.RStoreBegin? && t.r.begin == s.c.dataBeg && t.r.n == 1 && t.r.least == 1
  {
    q := LookToRead(p, d);
    q := ReaderMoves(q, d, 0);
    q := ReaderMoves(q, d, 0);
    q := ReaderMoves(q, d, 1);
    q := ReaderMoves(q, d, 0);
  }

  /** Reading one byte; the writer is signalled if it has its flag set. */
  lemma ReadOne(p: Pair, d: Dir) returns (q: Pair)
    requires Reached(p) && Get(p, d).r.pc.RIdle? && Get(p, Other(d)).w.pc.WIdle?
    requires var c := Get(p, d).c; RecvSize(c.dataBeg, c.dataEnd) > 0 && c.dataBeg < |c.dataBuf|
    ensures Moved(p, d, Get(q, d), q)
    ensures var s, t := Get(p, d), Get(q, d);
            && t.w == s.w && t.r.pc.RIdle?
            && t.c == s.c.(recvWaitFlag := false, dataBeg := Turned(s.c.dataBeg + 1), rtt := s.c.rtt || s.c.sendWaitFlag)
  {
    q := TakeOne(p, d);
    q := ReaderMoves(q, d, 0);
    q := ReaderMoves(q, d, 0);
    if Get(q, d).r.pc.RSignal? {
      q := ReaderMoves(q, d, 0);
    }
  }

  /** Both rings are full and A waits to write one byte more. */
  lemma {:induction false} BothFull() returns (p: Pair)
    ensures Reached(p)
    ensures p.ba.w.pc.WIdle? && p.ba.r.pc.RIdle? && p.ab.r.pc.RIdle?
    ensures p.ab.w.pc.WWait? && |p.ab.w.src| == 1
    ensures p.ba.c == Channel(false, false, CAPACITY - 1, 0, p.ba.c.dataBuf, false, false)
    ensures p.ab.c == Channel(false, true, CAPACITY - 1, 0, p.ab.c.dataBuf, false, false)
    ensures |p.ab.c.dataBuf| == |p.ba.c.dataBuf| == CAPACITY
  {
    var full := seq(CAPACITY - 1, Blank);
    assert CanDoSingly(Start(), []);
    assert DoAll(Start(), [], true) == Start();
    p := BeginWrite(Start(), BA, full);
    p := FinishWrite(p, BA);
    p := BeginWrite(p, AB, full);
    p := FinishWrite(p, AB);
    p := BeginWrite(p, AB, [1]);
    p := BlockWrite(p, AB);
  }

  /** B reads one byte, signalling A, and waits in turn to write one byte more. */
  lemma {:induction false} BothWait() returns (p: Pair)
    ensures Reached(p)
    ensures p.ab.r.pc.RIdle? && p.ba.r.pc.RIdle?
    ensures p.ab.w.pc.WWait? && |p.ab.w.src| == 1 && p.ba.w.pc.WWait?
    ensures p.ba.c == Channel(false, true, CAPACITY - 1, 0, p.ba.c.dataBuf, false, false)
    ensures p.ab.c == Channel(false, true, CAPACITY - 1, 1, p.ab.c.dataBuf, false, true)
    ensures |p.ab.c.dataBuf| == |p.ba.c.dataBuf| == CAPACITY
  {
    p := BothFull();
    p := ReadOne(p, AB);
    p := BeginWrite(p, BA, [2]);
    p := BlockWrite(p, BA);
  }

  /** A run of single-threaded ends, as written, after which B waits forever on a ring with room. */
  lemma {:induction false} LostWakeup() returns (p: Pair)
    ensures Reached(p) && Lost(p.ba)
  {
    p := BothWait();
    p := WriterMoves(p, AB, 0);
    p := WriterWakes(p, AB);
    p := FinishWrite(p, AB);
    p := ReadOne(p, BA);
    ReachedFifo(p);
    FullExactly(|p.ba.got|, |p.ba.sent|);
  }

  lemma ReachedFifo(p: Pair)
    requires Reached(p)
    ensures Fifo(p.ab) && Fifo(p.ba)
  {
    var xs :| CanDoSingly(Start(), xs) && DoAll(Start(), xs, true) == p;
    InitialOk();
    FifoEitherWay(Start(), xs, true);
  }
}
