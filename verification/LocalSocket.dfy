/**
 One direction of the local socket: a ring buffer in shared memory, written by one process and
 read by another, with a wait flag and an auto-reset event for each. Both loops are cut into
 atomic steps, one access to shared memory or one event operation each, which may interleave
 in any way; copying may be cut into pieces of any size.
 */
module LocalSocket {
  import opened Basics

  // The buffer is what four integers leave of eight kilobytes.
  const CAPACITY: nat := 8 * 1024 - 4 * 4

  /** What both processes share: flags, positions, bytes, and the two events. */
  datatype Channel = Channel(
    recvWaitFlag: bool,
    sendWaitFlag: bool,
    dataEnd: nat,
    dataBeg: nat,
    dataBuf: seq<Byte>,
    rd: bool,  // set by the writer as TD, awaited by the reader
    rtt: bool) // set by the reader as RTR, awaited by the writer

  /** Where the writer is: the statement it executes next. */
  datatype WriterPc =
    | WIdle | WSetFlag | WLoadBegin | WLoadEnd | WDecide | WClearFlag | WCopy | WStoreEnd
    | WCheckFlag | WSignal | WWait | WWoken
  {
    // the write position of this round, or the fact that there is none, is settled
    predicate KnowsEnd() { WDecide? || WClearFlag? || WCopy? || WStoreEnd? || WWait? }
    predicate KnowsBegin() { WLoadEnd? || KnowsEnd() }
    predicate Flagged() { WLoadBegin? || WLoadEnd? || WDecide? || WClearFlag? || WWait? || WWoken? }
    predicate Busy() { WSetFlag? || Flagged() || WCopy? || WStoreEnd? }
  }

  datatype ReaderPc =
    | RIdle | RSetFlag | RLoadBegin | RLoadEnd | RDecide | RClearFlag | RCopy | RStoreBegin
    | RCheckFlag | RSignal | RWait | RWoken
  {
    predicate KnowsEnd() { RDecide? || RClearFlag? || RCopy? || RStoreBegin? || RWait? }
    predicate KnowsBegin() { RLoadEnd? || KnowsEnd() }
    predicate Flagged() { RLoadBegin? || RLoadEnd? || RDecide? || RClearFlag? || RWait? || RWoken? }
    predicate Busy() { RSetFlag? || Flagged() || RCopy? || RStoreBegin? }
  }

  /** `src` is what is left to write; `n` bytes go in this round, `k` of them are copied. */
  datatype Writer = Writer(pc: WriterPc, src: seq<Byte>, begin: nat, end: nat, n: nat, k: nat)

  /** At least `least`, at most `most` bytes are left to read; `dst` are those of this round. */
  datatype Reader = Reader(pc: ReaderPc, least: nat, most: nat, begin: nat, end: nat, n: nat, dst: seq<Byte>)

  /** The system, with the bytes published and consumed so far and what each side last saw of the other. */
  datatype State = State(c: Channel, w: Writer, r: Reader, sent: seq<Byte>, got: seq<Byte>, sawGot: nat, sawSent: nat)

  /** The slot of the `i`-th byte ever written. */
  function Pos(i: nat): nat { i % CAPACITY }

  /** Free space from `end` on, without wrapping and keeping one byte free. */
  function SendSize(begin: nat, end: nat): int {
    if begin <= end then CAPACITY - end - (if begin == 0 then 1 else 0) else begin - end - 1
  }

  /** Bytes from `begin` on, without wrapping. */
  function RecvSize(begin: nat, end: nat): int {
    if begin <= end then end - begin else CAPACITY - begin
  }

  function Turned(i: nat): nat { if i == CAPACITY then 0 else i }

  datatype Action = StartWrite(data: seq<Byte>) | StartRead(least: nat, most: nat) | WriterStep(m: nat) | ReaderStep(m: nat)

  /** Whether the action can happen; a waiting process moves only when its event is set. */
  predicate Enabled(s: State, a: Action) {
    match a
    case StartWrite(_) => s.w.pc.WIdle?
    case StartRead(least, most) => s.r.pc.RIdle? && least <= most
    case WriterStep(m) =>
      && !s.w.pc.WIdle?
      && (s.w.pc.WWait? ==> s.c.rtt)
      && (s.w.pc.WCopy? && s.w.k < s.w.n ==> 1 <= m <= s.w.n - s.w.k)
    case ReaderStep(m) =>
      && !s.r.pc.RIdle?
      && (s.r.pc.RWait? ==> s.c.rd)
      && (s.r.pc.RCopy? && |s.r.dst| < s.r.n ==> 1 <= m <= s.r.n - |s.r.dst|)
  }

  /** Copies `m` bytes of the source behind those already copied. */
  function CopyIn(buf: seq<Byte>, w: Writer, m: nat): seq<Byte> {
    var from := w.end + w.k;
    if from + m <= |buf| && w.k + m <= |w.src|
    then buf[..from] + w.src[w.k..w.k + m] + buf[from + m..]
    else buf
  }

  function CopyOut(buf: seq<Byte>, r: Reader, m: nat): seq<Byte> {
    var from := r.begin + |r.dst|;
    if from + m <= |buf| then r.dst + buf[from..from + m] else r.dst
  }

  /** The next statement of the writer; `clears` tells whether waking up clears its own flag. */
  function WriterNext(s: State, m: nat, clears: bool): State {
    var c, w := s.c, s.w;
    match w.pc
    case WIdle => s
    case WSetFlag => s.(c := c.(sendWaitFlag := true), w := w.(pc := WLoadBegin))
    case WLoadBegin => s.(w := w.(pc := WLoadEnd, begin := c.dataBeg), sawGot := |s.got|)
    case WLoadEnd => s.(w := w.(pc := WDecide, end := c.dataEnd))
    case WDecide => s.(w := w.(pc := if SendSize(w.begin, w.end) > 0 then WClearFlag else WWait))
    case WClearFlag =>
      var size := SendSize(w.begin, w.end);
      s.(c := c.(sendWaitFlag := false), w := w.(pc := WCopy, n := Min(if size < 0 then 0 else size, |w.src|), k := 0))
    case WCopy =>
      if w.k >= w.n then s.(w := w.(pc := WStoreEnd))
      else s.(c := c.(dataBuf := CopyIn(c.dataBuf, w, m)), w := w.(k := w.k + m))
    case WStoreEnd =>
      s.(c := c.(dataEnd := Turned(w.end + w.n)),
         w := w.(pc := WCheckFlag, src := if w.n <= |w.src| then w.src[w.n..] else []),
         sent := s.sent + (if w.n <= |w.src| then w.src[..w.n] else w.src))
    case WCheckFlag =>
      s.(w := w.(pc := if c.recvWaitFlag then WSignal else if w.src == [] then WIdle else WSetFlag))
    case WSignal => s.(c := c.(rd := true), w := w.(pc := if w.src == [] then WIdle else WSetFlag))
    case WWait => s.(c := c.(rtt := false), w := w.(pc := WWoken))
    case WWoken => s.(c := if clears then c.(sendWaitFlag := false) else c, w := w.(pc := WSetFlag))
  }

  function ReaderNext(s: State, m: nat): State {
    var c, r := s.c, s.r;
    match r.pc
    case RIdle => s
    case RSetFlag => s.(c := c.(recvWaitFlag := true), r := r.(pc := RLoadBegin))
    case RLoadBegin => s.(r := r.(pc := RLoadEnd, begin := c.dataBeg))
    case RLoadEnd => s.(r := r.(pc := RDecide, end := c.dataEnd), sawSent := |s.sent|)
    case RDecide => s.(r := r.(pc := if RecvSize(r.begin, r.end) > 0 then RClearFlag else RWait))
    case RClearFlag =>
      var size := RecvSize(r.begin, r.end);
      s.(c := c.(recvWaitFlag := false), r := r.(pc := RCopy, n := Min(if size < 0 then 0 else size, r.most), dst := []))
    case RCopy =>
      if |r.dst| >= r.n then s.(r := r.(pc := RStoreBegin))
      else s.(r := r.(dst := CopyOut(c.dataBuf, r, m)))
    case RStoreBegin =>
      s.(c := c.(dataBeg := Turned(r.begin + r.n)),
         r := r.(pc := RCheckFlag, least := if r.n <= r.least then r.least - r.n else 0,
                 most := if r.n <= r.most then r.most - r.n else 0),
         got := s.got + r.dst)
    case RCheckFlag =>
      s.(r := r.(pc := if c.sendWaitFlag then RSignal else if r.least == 0 then RIdle else RSetFlag))
    case RSignal => s.(c := c.(rtt := true), r := r.(pc := if r.least == 0 then RIdle else RSetFlag))
    case RWait => s.(c := c.(rd := false), r := r.(pc := RWoken))
    case RWoken => s.(c := c.(recvWaitFlag := false), r := r.(pc := RSetFlag))
  }

  /** A call that has nothing to do returns at once. */
  function Step(s: State, a: Action, clears: bool): State
    requires Enabled(s, a)
  {
    match a
    case StartWrite(data) => if data == [] then s else s.(w := s.w.(pc := WSetFlag, src := data))
    case StartRead(least, most) => if least == 0 then s else s.(r := s.r.(pc := RSetFlag, least := least, most := most))
    case WriterStep(m) => WriterNext(s, m, clears)
    case ReaderStep(m) => ReaderNext(s, m)
  }

  function Blank(i: nat): Byte { 0 }

  function Initial(): State {
    State(Channel(false, false, 0, 0, seq(CAPACITY, Blank), false, false),
          Writer(WIdle, [], 0, 0, 0, 0), Reader(RIdle, 0, 0, 0, 0, 0, []), [], [], 0, 0)
  }

  predicate CanRun(s: State, run: seq<Action>, clears: bool)
    decreases |run|
  {
    run == [] || (Enabled(s, run[0]) && CanRun(Step(s, run[0], clears), run[1..], clears))
  }

  function Run(s: State, run: seq<Action>, clears: bool): State
    requires CanRun(s, run, clears)
    decreases |run|
  {
    if run == [] then s else Run(Step(s, run[0], clears), run[1..], clears)
  }

  // ---------------------------------------------------------------- ring contents

  /** The ring holds exactly the published bytes that are not consumed, wherever it wraps. */
  predicate RingOk(s: State) {
    && |s.c.dataBuf| == CAPACITY
    && |s.got| <= |s.sent| < |s.got| + CAPACITY
    && s.c.dataBeg == Pos(|s.got|) && s.c.dataEnd == Pos(|s.sent|)
    && s.got == s.sent[..|s.got|]
    && forall i | |s.got| <= i < |s.sent| :: s.c.dataBuf[Pos(i)] == s.sent[i]
  }

  /** What the writer believes about the ring is outdated in the safe direction only. */
  predicate WriterOk(s: State) {
    var w := s.w;
    && (w.pc.KnowsBegin() ==>
          w.begin == Pos(s.sawGot) && s.sawGot <= |s.got| && |s.sent| < s.sawGot + CAPACITY)
    && (w.pc.KnowsEnd() ==> w.end == Pos(|s.sent|))
    && (w.pc.WClearFlag? ==> SendSize(w.begin, w.end) > 0)
    && (w.pc.WWait? ==> SendSize(w.begin, w.end) <= 0)
    && (w.pc.Busy() ==> w.src != [])
    && ((w.pc.WCopy? || w.pc.WStoreEnd?) ==>
          && 0 < w.n <= |w.src| && w.k <= w.n && (w.pc.WStoreEnd? ==> w.k == w.n)
          && w.n <= SendSize(w.begin, w.end)
          && w.end + w.n <= CAPACITY && |s.sent| + w.n < s.sawGot + CAPACITY
          && |s.c.dataBuf| == CAPACITY
          && forall j | 0 <= j < w.k :: s.c.dataBuf[w.end + j] == w.src[j])
  }

  predicate ReaderOk(s: State) {
    var r := s.r;
    && (r.pc.KnowsBegin() ==> r.begin == Pos(|s.got|))
    && (r.pc.KnowsEnd() ==>
          r.end == Pos(s.sawSent) && |s.got| <= s.sawSent <= |s.sent|)
    && (r.pc.RClearFlag? ==> RecvSize(r.begin, r.end) > 0)
    && (r.pc.RWait? ==> RecvSize(r.begin, r.end) <= 0)
    && (r.pc.Busy() ==>
          0 < r.least <= r.most)
    && ((r.pc.RCheckFlag? || r.pc.RSignal?) ==> r.least <= r.most)
    && ((r.pc.RCopy? || r.pc.RStoreBegin?) ==>
          && 0 < r.n <= r.most && |r.dst| <= r.n && (r.pc.RStoreBegin? ==> |r.dst| == r.n)
          && r.begin + r.n <= CAPACITY && |s.got| + r.n <= s.sawSent
          && r.dst == s.sent[|s.got|..|s.got| + |r.dst|])
  }

  /** Distance of two positions that are less than one lap apart. */
  lemma Lap(a: nat, b: nat)
    requires a <= b < a + CAPACITY
    ensures (if Pos(a) <= Pos(b) then Pos(b) - Pos(a)
             else Pos(b) - Pos(a) + CAPACITY) == b - a
  {}

  lemma Advance(a: nat, n: nat)
    requires Pos(a) + n <= CAPACITY
    ensures Pos(a + n) == Turned(Pos(a) + n)
  {}

  lemma Within(a: nat, j: nat)
    requires Pos(a) + j < CAPACITY
    ensures Pos(a + j) == Pos(a) + j
  {}

  /** `begin` equals `end` exactly when the ring is empty. */
  lemma EmptyExactly(s: State)
    requires RingOk(s)
    ensures s.c.dataBeg == s.c.dataEnd <==> s.got == s.sent
  {
    Lap(|s.got|, |s.sent|);
    if s.c.dataBeg == s.c.dataEnd { assert s.sent[..|s.sent|] == s.sent; }
  }

  /** Nothing fits exactly when the ring is as full as it gets. */
  lemma FullExactly(a: nat, b: nat)
    requires a <= b < a + CAPACITY
    ensures SendSize(Pos(a), Pos(b)) <= 0 <==> b == a + CAPACITY - 1
    ensures RecvSize(Pos(a), Pos(b)) <= 0 <==> b == a
    ensures SendSize(Pos(a), Pos(b)) > 0 ==> b + SendSize(Pos(a), Pos(b)) < a + CAPACITY
    ensures SendSize(Pos(a), Pos(b)) > 0 ==> Pos(b) + SendSize(Pos(a), Pos(b)) <= CAPACITY
    ensures RecvSize(Pos(a), Pos(b)) > 0 ==> a + RecvSize(Pos(a), Pos(b)) <= b
    ensures RecvSize(Pos(a), Pos(b)) > 0 ==> Pos(a) + RecvSize(Pos(a), Pos(b)) <= CAPACITY
  {
    Lap(a, b);
  }

  lemma Apart(a: nat, b: nat)
    requires a < b < a + CAPACITY
    ensures Pos(a) != Pos(b)
  {}

  /** Copying stays clear of the unread bytes. */
  lemma CopyInClear(s: State, m: nat, i: nat)
    requires |s.c.dataBuf| == CAPACITY && s.w.end == Pos(|s.sent|) && s.w.end + s.w.n <= CAPACITY
    requires |s.sent| + s.w.n < s.sawGot + CAPACITY && s.sawGot <= |s.got|
    requires s.w.k + m <= s.w.n <= |s.w.src| && |s.got| <= i < |s.sent|
    ensures CopyIn(s.c.dataBuf, s.w, m)[Pos(i)] == s.c.dataBuf[Pos(i)]
  {
    var w := s.w;
    if w.end + w.k <= Pos(i) < w.end + w.k + m {
      var j := Pos(i) - w.end;
      Within(|s.sent|, j);
      Apart(i, |s.sent| + j);
    }
  }

  lemma {:induction false} CopyInKeeps(s: State, m: nat)
    requires RingOk(s) && WriterOk(s) && s.w.pc.WCopy? && s.w.k < s.w.n && 1 <= m <= s.w.n - s.w.k
    ensures var s' := s.(c := s.c.(dataBuf := CopyIn(s.c.dataBuf, s.w, m)), w := s.w.(k := s.w.k + m));
            RingOk(s') && WriterOk(s')
  {
    var w := s.w;
    var buf := CopyIn(s.c.dataBuf, w, m);
    forall i | |s.got| <= i < |s.sent| ensures buf[Pos(i)] == s.c.dataBuf[Pos(i)] {
      CopyInClear(s, m, i);
    }
    forall j | 0 <= j < w.k + m ensures buf[w.end + j] == w.src[j] {}
  }

  /** Publishing the copied bytes. */
  lemma {:induction false} StoreEndRing(s: State)
    requires RingOk(s) && WriterOk(s) && s.w.pc.WStoreEnd?
    ensures RingOk(s.(c := s.c.(dataEnd := Turned(s.w.end + s.w.n)), sent := s.sent + s.w.src[..s.w.n]))
  {
    var w := s.w;
    var sent := s.sent + w.src[..w.n];
    Advance(|s.sent|, w.n);
    assert sent[..|s.got|] == s.sent[..|s.got|];
    forall i | |s.got| <= i < |sent| ensures s.c.dataBuf[Pos(i)] == sent[i] {
      if i >= |s.sent| {
        var j := i - |s.sent|;
        Within(|s.sent|, j);
        assert s.c.dataBuf[w.end + j] == w.src[j] == sent[i];
      }
    }
  }

  /** The reader's share of the ring does not change when more is published. */
  lemma ReaderUnmoved(s: State, sent: seq<Byte>)
    requires ReaderOk(s) && s.sent <= sent && |s.got| <= |s.sent|
    ensures ReaderOk(s.(sent := sent))
  {
    if (s.r.pc.RCopy? || s.r.pc.RStoreBegin?) {
      assert sent[|s.got|..|s.got| + |s.r.dst|] == s.sent[|s.got|..|s.got| + |s.r.dst|];
    }
  }

  lemma {:induction false} CopyOutKeeps(s: State, m: nat)
    requires RingOk(s) && ReaderOk(s) && s.r.pc.RCopy? && |s.r.dst| < s.r.n && 1 <= m <= s.r.n - |s.r.dst|
    ensures ReaderOk(s.(r := s.r.(dst := CopyOut(s.c.dataBuf, s.r, m))))
  {
    var r := s.r;
    var dst := CopyOut(s.c.dataBuf, r, m);
    forall j | |r.dst| <= j < |r.dst| + m ensures dst[j] == s.sent[|s.got| + j] {
      Within(|s.got|, j);
      assert dst[j] == s.c.dataBuf[r.begin + j] == s.c.dataBuf[Pos(|s.got| + j)];
    }
    assert dst == s.sent[|s.got|..|s.got| + |dst|];
  }

  /** Giving the consumed bytes free. */
  lemma {:induction false} StoreBeginRing(s: State)
    requires RingOk(s) && ReaderOk(s) && s.r.pc.RStoreBegin?
    ensures RingOk(s.(c := s.c.(dataBeg := Turned(s.r.begin + s.r.n)), got := s.got + s.r.dst))
  {
    Advance(|s.got|, s.r.n);
    var got := s.got + s.r.dst;
    assert got == s.sent[..|got|];
  }

  ghost predicate Fifo(s: State) { RingOk(s) && WriterOk(s) && ReaderOk(s) }

  /** Statements of the writer that only look, decide, or move flags and events. */
  lemma {:induction false} WriterLooks(s: State, m: nat, clears: bool)
    requires Fifo(s) && Enabled(s, WriterStep(m)) && (!s.w.pc.WCopy? && !s.w.pc.WStoreEnd?)
    ensures WriterOk(WriterNext(s, m, clears))
  {
    if s.w.pc.WDecide? || s.w.pc.WClearFlag? { FullExactly(s.sawGot, |s.sent|); }
  }

  /** Nothing the ring invariant speaks about differs. */
  ghost predicate SameRing(s: State, s': State) {
    && s'.c.dataBuf == s.c.dataBuf && s'.c.dataBeg == s.c.dataBeg && s'.c.dataEnd == s.c.dataEnd
    && s'.sent == s.sent && s'.got == s.got
  }

  lemma RingFrame(s: State, s': State)
    requires RingOk(s) && SameRing(s, s')
    ensures RingOk(s')
  {}

  lemma ReaderFrame(s: State, s': State)
    requires ReaderOk(s) && s'.r == s.r && s'.sent == s.sent && s'.got == s.got && s'.sawSent == s.sawSent
    ensures ReaderOk(s')
  {}

  lemma WriterFrame(s: State, s': State)
    requires WriterOk(s) && s'.w == s.w && s'.sent == s.sent && s'.sawGot == s.sawGot
    requires |s.got| <= |s'.got| && s'.c.dataBuf == s.c.dataBuf
    ensures WriterOk(s')
  {}

  lemma {:induction false} WriterCopies(s: State, m: nat, clears: bool)
    requires Fifo(s) && Enabled(s, WriterStep(m)) && s.w.pc.WCopy?
    ensures Fifo(WriterNext(s, m, clears))
  {
    var s' := WriterNext(s, m, clears);
    if s.w.k < s.w.n { CopyInKeeps(s, m); } else { RingFrame(s, s'); }
    ReaderFrame(s, s');
  }

  lemma {:induction false} WriterPublishes(s: State, m: nat, clears: bool)
    requires Fifo(s) && s.w.pc.WStoreEnd?
    ensures Fifo(WriterNext(s, m, clears))
  {
    var s' := WriterNext(s, m, clears);
    var mid := s.(sent := s.sent + s.w.src[..s.w.n]);
    StoreEndRing(s);
    RingFrame(s.(c := s.c.(dataEnd := Turned(s.w.end + s.w.n)), sent := s.sent + s.w.src[..s.w.n]), s');
    ReaderUnmoved(s, mid.sent);
    ReaderFrame(mid, s');
  }

  lemma {:induction false} WriterKeepsFifo(s: State, m: nat, clears: bool)
    requires Fifo(s) && Enabled(s, WriterStep(m))
    ensures Fifo(WriterNext(s, m, clears))
  {
    var s' := WriterNext(s, m, clears);
    if s.w.pc.WCopy? {
      WriterCopies(s, m, clears);
    } else if s.w.pc.WStoreEnd? {
      WriterPublishes(s, m, clears);
    } else {
      WriterLooks(s, m, clears);
      RingFrame(s, s');
      ReaderFrame(s, s');
    }
  }

  lemma {:induction false} ReaderLooks(s: State, m: nat)
    requires Fifo(s) && Enabled(s, ReaderStep(m)) && (!s.r.pc.RCopy? && !s.r.pc.RStoreBegin?)
    ensures ReaderOk(ReaderNext(s, m))
  {
    if s.r.pc.RDecide? || s.r.pc.RClearFlag? { FullExactly(|s.got|, s.sawSent); }
  }

  lemma {:induction false} ReaderCopies(s: State, m: nat)
    requires Fifo(s) && Enabled(s, ReaderStep(m)) && s.r.pc.RCopy?
    ensures Fifo(ReaderNext(s, m))
  {
    var s' := ReaderNext(s, m);
    if |s.r.dst| < s.r.n { CopyOutKeeps(s, m); }
    RingFrame(s, s');
    WriterFrame(s, s');
  }

  lemma {:induction false} ReaderFrees(s: State, m: nat)
    requires Fifo(s) && s.r.pc.RStoreBegin?
    ensures Fifo(ReaderNext(s, m))
  {
    var s' := ReaderNext(s, m);
    StoreBeginRing(s);
    RingFrame(s.(c := s.c.(dataBeg := Turned(s.r.begin + s.r.n)), got := s.got + s.r.dst), s');
    WriterFrame(s, s');
  }

  lemma {:induction false} ReaderKeepsFifo(s: State, m: nat)
    requires Fifo(s) && Enabled(s, ReaderStep(m))
    ensures Fifo(ReaderNext(s, m))
  {
    var s' := ReaderNext(s, m);
    if s.r.pc.RCopy? {
      ReaderCopies(s, m);
    } else if s.r.pc.RStoreBegin? {
      ReaderFrees(s, m);
    } else {
      ReaderLooks(s, m);
      RingFrame(s, s');
      WriterFrame(s, s');
    }
  }

  // --------------------------------------------------------------------- wake-ups

  /** The flags as their owners keep them; a writer about to set its flag may find it set. */
  predicate FlagsOk(s: State) {
    && (s.c.recvWaitFlag <==> s.r.pc.Flagged())
    && (s.w.pc.Flagged() ==> s.c.sendWaitFlag)
    && (s.c.sendWaitFlag ==> s.w.pc.WSetFlag? || s.w.pc.Flagged())
  }

  predicate WriterWillSignal(s: State) { (s.w.pc.WCheckFlag? || s.w.pc.WSignal?) }

  predicate ReaderWillSignal(s: State) { (s.r.pc.RCheckFlag? || s.r.pc.RSignal?) }

  /** A side that found nothing to do has an event coming once there is something to do. */
  predicate WakesOk(s: State) {
    && ((s.r.pc.RDecide? || s.r.pc.RWait?) && s.sawSent == |s.got| && |s.sent| > |s.got| ==> s.c.rd || WriterWillSignal(s))
    && ((s.w.pc.WLoadEnd? || s.w.pc.WDecide? || s.w.pc.WWait?) && |s.sent| == s.sawGot + CAPACITY - 1 && |s.got| > s.sawGot ==>
          s.c.rtt || ReaderWillSignal(s))
  }

  ghost predicate Inv(s: State) { Fifo(s) && FlagsOk(s) && WakesOk(s) }

  lemma {:induction false} StepKeeps(s: State, a: Action, clears: bool)
    requires Inv(s) && Enabled(s, a)
    ensures Inv(Step(s, a, clears))
  {
    match a
    case WriterStep(m) =>
      WriterKeepsFifo(s, m, clears);
      WriterKeepsWakes(s, m, clears);
    case ReaderStep(m) =>
      ReaderKeepsFifo(s, m);
      ReaderKeepsWakes(s, m);
    case _ =>
  }

  lemma {:induction false} WriterKeepsFlags(s: State, m: nat, clears: bool)
    requires FlagsOk(s) && Enabled(s, WriterStep(m))
    ensures FlagsOk(WriterNext(s, m, clears))
  {}

  lemma {:induction false} WriterPublishesWakes(s: State, m: nat, clears: bool)
    requires WakesOk(s) && s.w.pc.WStoreEnd?
    ensures WakesOk(WriterNext(s, m, clears))
  {}

  lemma {:induction false} WriterKeepsWakes(s: State, m: nat, clears: bool)
    requires FlagsOk(s) && WakesOk(s) && Enabled(s, WriterStep(m))
    ensures FlagsOk(WriterNext(s, m, clears)) && WakesOk(WriterNext(s, m, clears))
  {
    WriterKeepsFlags(s, m, clears);
    if s.w.pc.WStoreEnd? {
      WriterPublishesWakes(s, m, clears);
    } else {
      assert WriterNext(s, m, clears).sent == s.sent;
    }
  }

  lemma {:induction false} ReaderKeepsFlags(s: State, m: nat)
    requires FlagsOk(s) && Enabled(s, ReaderStep(m))
    ensures FlagsOk(ReaderNext(s, m))
  {}

  lemma {:induction false} ReaderFreesWakes(s: State, m: nat)
    requires WakesOk(s) && s.r.pc.RStoreBegin?
    ensures WakesOk(ReaderNext(s, m))
  {}

  lemma {:induction false} ReaderKeepsWakes(s: State, m: nat)
    requires FlagsOk(s) && WakesOk(s) && Enabled(s, ReaderStep(m)) && |s.got| <= |s.sent|
    ensures FlagsOk(ReaderNext(s, m)) && WakesOk(ReaderNext(s, m))
  {
    ReaderKeepsFlags(s, m);
    if s.r.pc.RStoreBegin? {
      ReaderFreesWakes(s, m);
    } else {
      assert ReaderNext(s, m).got == s.got;
    }
  }

  /** Every state of every run satisfies the invariant, with either reading of the wake-up line. */
  lemma {:induction false} RunKeeps(s: State, run: seq<Action>, clears: bool)
    requires Inv(s) && CanRun(s, run, clears)
    ensures Inv(Run(s, run, clears))
    decreases |run|
  {
    if run != [] {
      StepKeeps(s, run[0], clears);
      RunKeeps(Step(s, run[0], clears), run[1..], clears);
    }
  }

  lemma InitialOk()
    ensures Inv(Initial())
  {}

  // ---------------------------------------------------------------- the theorems

  /** First in, first out: what was consumed and what lies in the ring is what was published. */
  lemma {:induction false} RingIsFifo(run: seq<Action>, clears: bool)
    requires CanRun(Initial(), run, clears)
    ensures var s := Run(Initial(), run, clears);
            && s.got <= s.sent
            && |s.c.dataBuf| == CAPACITY && s.c.dataBeg < CAPACITY && s.c.dataEnd < CAPACITY
            && Contents(s) == s.sent[|s.got|..]
            && (s.c.dataBeg == s.c.dataEnd <==> s.got == s.sent)
  {
    InitialOk();
    RunKeeps(Initial(), run, clears);
    var s := Run(Initial(), run, clears);
    EmptyExactly(s);
    ContentsAreUnread(s);
  }

  /** The bytes from dataBeg up to dataEnd, around the end of the buffer if need be. */
  function Contents(s: State): seq<Byte>
    requires |s.c.dataBuf| == CAPACITY && s.c.dataBeg < CAPACITY && s.c.dataEnd < CAPACITY
  {
    if s.c.dataBeg <= s.c.dataEnd then s.c.dataBuf[s.c.dataBeg..s.c.dataEnd]
    else s.c.dataBuf[s.c.dataBeg..] + s.c.dataBuf[..s.c.dataEnd]
  }

  lemma ContentsAreUnread(s: State)
    requires RingOk(s)
    ensures Contents(s) == s.sent[|s.got|..]
  {
    Lap(|s.got|, |s.sent|);
    assert |Contents(s)| == |s.sent| - |s.got|;
    forall i | 0 <= i < |s.sent| - |s.got| ensures Contents(s)[i] == s.sent[|s.got| + i] {
      ContentsAt(s, i);
      UnreadAt(s, i);
    }
  }

  /** The position `i` after `begin`, around the end of the buffer if need be. */
  function Around(begin: nat, i: nat): nat {
    if begin + i < CAPACITY || begin + i >= 2 * CAPACITY then begin + i else begin + i - CAPACITY
  }

  lemma AroundIsPos(a: nat, i: nat)
    requires i < CAPACITY
    ensures Pos(a + i) == Around(Pos(a), i)
  {}

  lemma ContentsAt(s: State, i: nat)
    requires |s.c.dataBuf| == CAPACITY && s.c.dataBeg < CAPACITY && s.c.dataEnd < CAPACITY && i < |Contents(s)|
    ensures Around(s.c.dataBeg, i) < CAPACITY && Contents(s)[i] == s.c.dataBuf[Around(s.c.dataBeg, i)]
  {}

  lemma UnreadAt(s: State, i: nat)
    requires RingOk(s) && |s.got| + i < |s.sent|
    ensures Around(s.c.dataBeg, i) < CAPACITY && s.c.dataBuf[Around(s.c.dataBeg, i)] == s.sent[|s.got| + i]
  {
    AroundIsPos(|s.got|, i);
    assert s.c.dataBuf[Pos(|s.got| + i)] == s.sent[|s.got| + i];
  }

  /** The peer has seen the flag, or is about to look at it while it is set. */
  predicate WriterSignals(s: State) { s.w.pc.WSignal? || (s.w.pc.WCheckFlag? && s.c.recvWaitFlag) }

  predicate ReaderSignals(s: State) { s.r.pc.RSignal? || (s.r.pc.RCheckFlag? && s.c.sendWaitFlag) }

  /** A side that waits although it could go on has its event set or about to be set. */
  predicate Promise(s: State) {
    && (s.r.pc.RWait? && |s.sent| > |s.got| ==> s.c.rd || WriterSignals(s))
    && (s.w.pc.WWait? && |s.sent| < |s.got| + CAPACITY - 1 ==> s.c.rtt || ReaderSignals(s))
  }

  /** No wake-up is lost, and the two sides never wait for each other. */
  lemma {:induction false} NoLostWakeup(run: seq<Action>, clears: bool)
    requires CanRun(Initial(), run, clears)
    ensures var s := Run(Initial(), run, clears);
            Promise(s) && !(s.r.pc.RWait? && !s.c.rd && s.w.pc.WWait? && !s.c.rtt)
  {
    InitialOk();
    RunKeeps(Initial(), run, clears);
    var s := Run(Initial(), run, clears);
    WaitersSeeTruth(s);
  }

  lemma WaitersSeeTruth(s: State)
    requires Fifo(s)
    ensures s.r.pc.RWait? ==> s.sawSent == |s.got|
    ensures s.w.pc.WWait? ==> |s.sent| == s.sawGot + CAPACITY - 1
  {
    if s.r.pc.RWait? { FullExactly(|s.got|, s.sawSent); }
    if s.w.pc.WWait? { FullExactly(s.sawGot, |s.sent|); }
  }

  /** "About to be set" means: after at most two more steps of the peer alone. */
  lemma {:induction false} SignalComes(s: State, clears: bool)
    requires Inv(s)
    ensures s.r.pc.RWait? && |s.sent| > |s.got| && !s.c.rd ==>
              WriterNext(s, 0, clears).c.rd || WriterNext(WriterNext(s, 0, clears), 0, clears).c.rd
    ensures s.w.pc.WWait? && |s.sent| < |s.got| + CAPACITY - 1 && !s.c.rtt ==>
              ReaderNext(s, 0).c.rtt || ReaderNext(ReaderNext(s, 0), 0).c.rtt
  {
    WaitersSeeTruth(s);
  }
}
