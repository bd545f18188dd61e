/**
 Evaluation of stream operators: messages travel down the tree, value arguments of a stream
 operator are evaluated when it is opened and kept for all later messages, and requests that
 are answered with an element count for the counter of the answering node. What happens is
 written into a trace; the promises about arguments and counters are promises about traces.
 */
module StreamEvaluation {
  import opened QueryTerms

  datatype Message = Open | Request | Close | RequestProgress | CloseProgress
  {
    predicate Ordinary() { Open? || Request? || Close? }

    // evaluations of value arguments that are done, but not yet counted as an opening
    function Ahead(): nat { if Open? then 1 else 0 }

    // what the value arguments of an operator are sent before its value mapping is called
    function PassedOn(isStream: bool): seq<Message> {
      if isStream then (if Open? then [Open] else []) else if Ordinary() then [this] else []
    }
  }

  datatype Node =
    | Leaf(evaluable: bool, value: Word)
    | Op(evaluable: bool, key: nat, isStream: bool, counterNo: nat, sons: seq<Node>)

  /** A node is addressed by the way that leads to it from the root. */
  type Path = seq<nat>

  function NodeAt(n: Node, p: Path): Node
    decreases |p|
  {
    if p == [] then n
    else if n.Op? && p[0] < |n.sons| then NodeAt(n.sons[p[0]], p[1..])
    else Leaf(false, 0)
  }

  lemma {:induction false} SonAt(n: Node, p: Path, i: nat)
    requires NodeAt(n, p).Op? && i < |NodeAt(n, p).sons|
    ensures NodeAt(n, p + [i]) == NodeAt(n, p).sons[i]
    decreases |p|
  {
    if p == [] {
      assert p + [i] == [i] && [i][1..] == [];
    } else {
      assert (p + [i])[1..] == p[1..] + [i];
      SonAt(n.sons[p[0]], p[1..], i);
    }
  }

  /**
   What a value mapping does when called with a message: it sends messages to those of its
   sons that are streams or functions, and ends by answering with an element or without.
   */
  datatype Task =
    | Finish(yielded: bool, w: Word, local: Word)
    | Ask(rank: ORDINAL, son: nat, message: Message, cont: (Word, bool) -> Task)
  {
    ghost function Rank(): ORDINAL { if Finish? then 0 else rank }
  }

  ghost predicate Ends(t: Task)
    decreases t.Rank()
  {
    t.Ask? ==> forall w: Word, b: bool :: t.cont(w, b).Rank() < t.rank && Ends(t.cont(w, b))
  }

  type Behaviour = t: Task | Ends(t) witness Finish(false, 0, 0)

  // -------------------------------------------------------------------- traces

  datatype Event =
    | Evaluated(p: Path, son: nat, w: Word)                       // a value argument was evaluated
    | Ran(p: Path, message: Message, args: seq<Arg>, local: Word) // a value mapping was called
    | Answered(p: Path, son: nat, message: Message, w: Word, yielded: bool) // it got an answer from a supplier
    | Finished(p: Path, message: Message, yielded: bool, w: Word, local: Word) // and came to its end
    | Requested(p: Path, yielded: bool)                           // a request was answered
    | Reset                                                       // all counters were set to zero

  /** The last value of argument `i` of node `p`. */
  function Saved(t: seq<Event>, p: Path, i: nat): Word {
    if t == [] then 0
    else
      var e := t[|t| - 1];
      if e.Evaluated? && e.p == p && e.son == i then e.w else Saved(t[..|t| - 1], p, i)
  }

  /** The last word node `p` answered with. */
  function LastAnswer(t: seq<Event>, p: Path): Word {
    if t == [] then 0
    else
      var e := t[|t| - 1];
      if e.Finished? && e.p == p then e.w else LastAnswer(t[..|t| - 1], p)
  }

  /** What evaluating node `n` at `p` has come to. */
  function ResultOf(n: Node, t: seq<Event>, p: Path): Word {
    if n.Leaf? then n.value else LastAnswer(t, p)
  }

  /** What the value mapping of node `p` left for its next call. */
  function LocalOf(t: seq<Event>, p: Path): Word {
    if t == [] then 0
    else
      var e := t[|t| - 1];
      if e.Finished? && e.p == p then e.local else LocalOf(t[..|t| - 1], p)
  }

  /** The last call of the value mapping of node `p`; `Reset` if there was none. */
  function Call(t: seq<Event>, p: Path): Event {
    if t == [] then Reset
    else
      var e := t[|t| - 1];
      if e.Ran? && e.p == p then e else Call(t[..|t| - 1], p)
  }

  /** The answers it has got since. */
  function Answers(t: seq<Event>, p: Path): seq<(Word, bool)> {
    if t == [] then []
    else
      var e := t[|t| - 1];
      if e.Ran? && e.p == p then []
      else Answers(t[..|t| - 1], p) + if e.Answered? && e.p == p then [(e.w, e.yielded)] else []
  }

  /** The messages node `p` has come to an end with. */
  function Ended(t: seq<Event>, p: Path): seq<Message> {
    if t == [] then []
    else
      var e := t[|t| - 1];
      Ended(t[..|t| - 1], p) + if e.Finished? && e.p == p then [e.message] else []
  }

  /** The messages son `i` of node `p` has come to an end with since the last call of `p`. */
  function Since(t: seq<Event>, p: Path, i: nat): seq<Message> {
    if t == [] then []
    else
      var e := t[|t| - 1];
      if e.Ran? && e.p == p then []
      else Since(t[..|t| - 1], p, i) + if e.Finished? && e.p == p + [i] then [e.message] else []
  }

  /** Argument `i` of the last call of the value mapping of node `p`. */
  function LastArg(t: seq<Event>, p: Path, i: nat): Arg {
    var call := Call(t, p);
    if call.Ran? && i < |call.args| then call.args[i] else Val(0)
  }

  /** A task after some answers. */
  function Follow(task: Task, answers: seq<(Word, bool)>): Task {
    if answers == [] then task
    else
      var t := Follow(task, answers[..|answers| - 1]);
      var a := answers[|answers| - 1];
      if t.Ask? then t.cont(a.0, a.1) else t
  }

  lemma FollowSnoc(task: Task, answers: seq<(Word, bool)>, a: (Word, bool))
    ensures Follow(task, answers + [a])
         == var t := Follow(task, answers); if t.Ask? then t.cont(a.0, a.1) else t
  {
    assert (answers + [a])[..|answers|] == answers;
  }

  /** How often argument `i` of node `p` was evaluated. */
  function Evaluations(t: seq<Event>, p: Path, i: nat): nat {
    if t == [] then 0
    else
      var e := t[|t| - 1];
      Evaluations(t[..|t| - 1], p, i) + if e.Evaluated? && e.p == p && e.son == i then 1 else 0
  }

  /** How often the value mapping of node `p` was called to open it. */
  function Opens(t: seq<Event>, p: Path): nat {
    if t == [] then 0
    else
      var e := t[|t| - 1];
      Opens(t[..|t| - 1], p) + if e.Ran? && e.p == p && e.message.Open? then 1 else 0
  }

  /** Elements answered to requests by nodes with counter `k` since counters were reset. */
  function Elements(root: Node, t: seq<Event>, k: nat): nat {
    if t == [] then 0
    else
      var e := t[|t| - 1];
      if e.Reset? then 0
      else Elements(root, t[..|t| - 1], k) + if e.Requested? && e.yielded && CounterOf(root, e.p) == k then 1 else 0
  }

  /** Elements answered by nodes whose counter the array has no cell for. */
  function Strays(root: Node, t: seq<Event>): nat {
    if t == [] then 0
    else
      var e := t[|t| - 1];
      Strays(root, t[..|t| - 1]) + if e.Requested? && e.yielded && CounterOf(root, e.p) >= NOCOUNTERS then 1 else 0
  }

  function CounterOf(root: Node, p: Path): nat {
    var n := NodeAt(root, p);
    if n.Op? then n.counterNo else 0
  }

  /**
   An operator runs on suppliers and values. Values of a stream operator are the saved ones,
   each evaluated exactly once per opening; those of a simple operator are answers given since its
   last call, to just the message it is called with, and are kept only for messages about progress.
   */
  ghost predicate RanOnArguments(root: Node, t: seq<Event>, e: Event)
    requires e.Ran?
  {
    var n := NodeAt(root, e.p);
    n.Op? && |e.args| == |n.sons| && forall i | 0 <= i < |n.sons| ::
      if !n.sons[i].evaluable then e.args[i] == Supplier
      else
        && (n.sons[i].Op? ==> Since(t, e.p, i) == e.message.PassedOn(n.isStream))
        && if n.isStream then e.args[i] == Val(Saved(t, e.p, i)) && Evaluations(t, e.p, i) == Opens(t + [e], e.p)
           else if e.message.Ordinary() then e.args[i] == Val(ResultOf(n.sons[i], t, e.p + [i]))
           else e.args[i] == LastArg(t, e.p, i)
  }

  /** A value argument is saved just after its node has answered to being opened. */
  ghost predicate SavedAnswer(root: Node, t: seq<Event>, e: Event)
    requires e.Evaluated?
  {
    var n := NodeAt(root, e.p);
    && n.Op? && n.isStream && e.son < |n.sons| && n.sons[e.son].evaluable
    && e.w == ResultOf(n.sons[e.son], t, e.p + [e.son])
    && (n.sons[e.son].Op? ==> Just(t, e.p + [e.son], Open))
  }

  /** The last thing that happened is that node `p` answered to `message`. */
  ghost predicate Just(t: seq<Event>, p: Path, message: Message) {
    t != [] && t[|t| - 1].Finished? && t[|t| - 1].p == p && t[|t| - 1].message == message
  }

  ghost predicate EventOk(root: Node, t: seq<Event>, e: Event) {
    match e
    case Evaluated(_, _, _) => SavedAnswer(root, t, e)
    case Ran(_, _, _, _) => RanOnArguments(root, t, e)
    case Requested(p, yielded) => NodeAt(root, p).Op? && Just(t, p, Request) && t[|t| - 1].yielded == yielded
    case _ => true
  }

  type ValueMap = (nat, seq<Arg>, Message, Word) -> Behaviour

  /** How far the value mapping of node `p` has come since its last call. */
  function Progress(root: Node, valueMap: ValueMap, t: seq<Event>, p: Path): Task {
    var call, n := Call(t, p), NodeAt(root, p);
    if call.Ran? && n.Op? then Follow(valueMap(n.key, call.args, call.message, call.local), Answers(t, p))
    else Finish(false, 0, 0)
  }

  /** A supplier answers with its last word; a stream without an element answers a request with null. */
  ghost predicate SupplierSaid(root: Node, t: seq<Event>, e: Event)
    requires e.Answered?
  {
    var n, q := NodeAt(root, e.p), e.p + [e.son];
    if !n.Op? || e.son >= |n.sons| || n.sons[e.son].evaluable then e.w == 0 && !e.yielded
    else if n.sons[e.son].Leaf? then e.w == n.sons[e.son].value && !e.yielded
    else if e.message.Request? then
      && t != [] && t[|t| - 1] == Requested(q, e.yielded)
      && e.w == (if n.sons[e.son].isStream && !e.yielded then 0 else LastAnswer(t, q))
    else Just(t, q, e.message) && t[|t| - 1].yielded == e.yielded && t[|t| - 1].w == e.w
  }

  /** Value mappings follow their program: they ask what it asks and end as it ends, on the state they left. */
  ghost predicate Follows(root: Node, valueMap: ValueMap, t: seq<Event>, e: Event) {
    match e
    case Ran(p, _, _, local) => local == LocalOf(t, p)
    case Answered(p, son, message, _, _) =>
      var task := Progress(root, valueMap, t, p);
      task.Ask? && task.son == son && task.message == message && SupplierSaid(root, t, e)
    case Finished(p, message, yielded, w, local) =>
      Call(t, p).Ran? && Call(t, p).message == message && Progress(root, valueMap, t, p) == Finish(yielded, w, local)
    case _ => true
  }

  ghost predicate AllFollow(root: Node, valueMap: ValueMap, t: seq<Event>) {
    t != [] ==> AllFollow(root, valueMap, t[..|t| - 1]) && Follows(root, valueMap, t[..|t| - 1], t[|t| - 1])
  }

  lemma FollowGrow(root: Node, valueMap: ValueMap, t: seq<Event>, e: Event)
    requires AllFollow(root, valueMap, t) && Follows(root, valueMap, t, e)
    ensures AllFollow(root, valueMap, t + [e])
  {
    assert (t + [e])[..|t|] == t;
  }

  ghost predicate TraceOk(root: Node, t: seq<Event>) {
    t != [] ==> TraceOk(root, t[..|t| - 1]) && EventOk(root, t[..|t| - 1], t[|t| - 1])
  }

  lemma Grow(root: Node, t: seq<Event>, e: Event)
    requires TraceOk(root, t) && EventOk(root, t, e)
    ensures TraceOk(root, t + [e])
  {
    assert (t + [e])[..|t|] == t;
  }

  /** One more event, as the counting functions see it. */
  lemma After(root: Node, t: seq<Event>, e: Event, p: Path, i: nat, k: nat)
    ensures Saved(t + [e], p, i) == if e.Evaluated? && e.p == p && e.son == i then e.w else Saved(t, p, i)
    ensures Evaluations(t + [e], p, i) == Evaluations(t, p, i) + if e.Evaluated? && e.p == p && e.son == i then 1 else 0
    ensures Opens(t + [e], p) == Opens(t, p) + if e.Ran? && e.p == p && e.message.Open? then 1 else 0
    ensures Elements(root, t + [e], k) == if e.Reset? then 0
              else Elements(root, t, k) + if e.Requested? && e.yielded && CounterOf(root, e.p) == k then 1 else 0
    ensures Strays(root, t + [e])
         == Strays(root, t) + if e.Requested? && e.yielded && CounterOf(root, e.p) >= NOCOUNTERS then 1 else 0
    ensures LastAnswer(t + [e], p) == if e.Finished? && e.p == p then e.w else LastAnswer(t, p)
    ensures LocalOf(t + [e], p) == if e.Finished? && e.p == p then e.local else LocalOf(t, p)
    ensures Call(t + [e], p) == if e.Ran? && e.p == p then e else Call(t, p)
    ensures Answers(t + [e], p) == if e.Ran? && e.p == p then []
              else Answers(t, p) + if e.Answered? && e.p == p then [(e.w, e.yielded)] else []
    ensures Ended(t + [e], p) == Ended(t, p) + if e.Finished? && e.p == p then [e.message] else []
    ensures Since(t + [e], p, i) == if e.Ran? && e.p == p then []
              else Since(t, p, i) + if e.Finished? && e.p == p + [i] then [e.message] else []
  {
    assert (t + [e])[..|t|] == t;
  }

  lemma AfterValues(root: Node, t: seq<Event>, e: Event)
    ensures forall p, i: nat :: Saved(t + [e], p, i) == if e.Evaluated? && e.p == p && e.son == i then e.w else Saved(t, p, i)
    ensures forall p, i: nat :: Evaluations(t + [e], p, i)
                             == Evaluations(t, p, i) + if e.Evaluated? && e.p == p && e.son == i then 1 else 0
    ensures forall p :: LastAnswer(t + [e], p) == if e.Finished? && e.p == p then e.w else LastAnswer(t, p)
    ensures forall p :: LocalOf(t + [e], p) == if e.Finished? && e.p == p then e.local else LocalOf(t, p)
    ensures forall p :: Opens(t + [e], p) == Opens(t, p) + if e.Ran? && e.p == p && e.message.Open? then 1 else 0
  {
    forall p, i: nat
      ensures Saved(t + [e], p, i) == if e.Evaluated? && e.p == p && e.son == i then e.w else Saved(t, p, i)
      ensures Evaluations(t + [e], p, i) == Evaluations(t, p, i) + if e.Evaluated? && e.p == p && e.son == i then 1 else 0
      ensures Opens(t + [e], p) == Opens(t, p) + if e.Ran? && e.p == p && e.message.Open? then 1 else 0
      ensures LastAnswer(t + [e], p) == if e.Finished? && e.p == p then e.w else LastAnswer(t, p)
      ensures LocalOf(t + [e], p) == if e.Finished? && e.p == p then e.local else LocalOf(t, p)
    {
      After(root, t, e, p, i, 0);
    }
  }

  lemma AfterCalls(root: Node, t: seq<Event>, e: Event)
    ensures forall p :: Call(t + [e], p) == if e.Ran? && e.p == p then e else Call(t, p)
    ensures forall p :: Answers(t + [e], p) == if e.Ran? && e.p == p then []
              else Answers(t, p) + if e.Answered? && e.p == p then [(e.w, e.yielded)] else []
    ensures forall p :: Ended(t + [e], p) == Ended(t, p) + if e.Finished? && e.p == p then [e.message] else []
    ensures forall p, i: nat :: Since(t + [e], p, i) == if e.Ran? && e.p == p then []
              else Since(t, p, i) + if e.Finished? && e.p == p + [i] then [e.message] else []
  {
    forall p, i: nat
      ensures Call(t + [e], p) == if e.Ran? && e.p == p then e else Call(t, p)
      ensures Answers(t + [e], p) == if e.Ran? && e.p == p then []
                else Answers(t, p) + if e.Answered? && e.p == p then [(e.w, e.yielded)] else []
      ensures Ended(t + [e], p) == Ended(t, p) + if e.Finished? && e.p == p then [e.message] else []
      ensures Since(t + [e], p, i) == if e.Ran? && e.p == p then []
                else Since(t, p, i) + if e.Finished? && e.p == p + [i] then [e.message] else []
    {
      After(root, t, e, p, i, 0);
    }
  }

  lemma AfterAll(root: Node, t: seq<Event>, e: Event)
    ensures forall p, i: nat :: Saved(t + [e], p, i) == if e.Evaluated? && e.p == p && e.son == i then e.w else Saved(t, p, i)
    ensures forall p, i: nat :: Evaluations(t + [e], p, i)
                             == Evaluations(t, p, i) + if e.Evaluated? && e.p == p && e.son == i then 1 else 0
    ensures forall p :: LastAnswer(t + [e], p) == if e.Finished? && e.p == p then e.w else LastAnswer(t, p)
    ensures forall p :: LocalOf(t + [e], p) == if e.Finished? && e.p == p then e.local else LocalOf(t, p)
    ensures forall p :: Call(t + [e], p) == if e.Ran? && e.p == p then e else Call(t, p)
    ensures forall p :: Answers(t + [e], p) == if e.Ran? && e.p == p then []
              else Answers(t, p) + if e.Answered? && e.p == p then [(e.w, e.yielded)] else []
    ensures forall p :: Ended(t + [e], p) == Ended(t, p) + if e.Finished? && e.p == p then [e.message] else []
    ensures forall p, i: nat :: Since(t + [e], p, i) == if e.Ran? && e.p == p then []
              else Since(t, p, i) + if e.Finished? && e.p == p + [i] then [e.message] else []
    ensures forall p :: Opens(t + [e], p) == Opens(t, p) + if e.Ran? && e.p == p && e.message.Open? then 1 else 0
    ensures forall k :: Elements(root, t + [e], k) == if e.Reset? then 0
              else Elements(root, t, k) + if e.Requested? && e.yielded && CounterOf(root, e.p) == k then 1 else 0
    ensures Strays(root, t + [e])
         == Strays(root, t) + if e.Requested? && e.yielded && CounterOf(root, e.p) >= NOCOUNTERS then 1 else 0
    ensures !e.Reset? ==> GrownBelow(t, t + [e], e.p)
  {
    AfterValues(root, t, e);
    AfterCalls(root, t, e);
    AfterCounts(root, t, e);
    if !e.Reset? { GrownByOne(t, e); }
  }

  lemma AfterCounts(root: Node, t: seq<Event>, e: Event)
    ensures forall k :: Elements(root, t + [e], k) == if e.Reset? then 0
              else Elements(root, t, k) + if e.Requested? && e.yielded && CounterOf(root, e.p) == k then 1 else 0
    ensures Strays(root, t + [e])
         == Strays(root, t) + if e.Requested? && e.yielded && CounterOf(root, e.p) >= NOCOUNTERS then 1 else 0
  {
    forall k: nat
      ensures Elements(root, t + [e], k) == if e.Reset? then 0
                else Elements(root, t, k) + if e.Requested? && e.yielded && CounterOf(root, e.p) == k then 1 else 0
    {
      After(root, t, e, [], 0, k);
    }
    After(root, t, e, [], 0, 0);
  }

  lemma GrownByOne(t: seq<Event>, e: Event)
    requires !e.Reset?
    ensures GrownBelow(t, t + [e], e.p)
  {}

  /** An answer, or the end of a value mapping, is neither evaluated nor opened nor counted. */
  lemma AfterAnswer(root: Node, t: seq<Event>, e: Event)
    requires e.Answered? || e.Finished?
    ensures forall p, i: nat :: Saved(t + [e], p, i) == Saved(t, p, i)
    ensures forall p, i: nat :: Evaluations(t + [e], p, i) == Evaluations(t, p, i)
    ensures forall p :: Opens(t + [e], p) == Opens(t, p)
    ensures forall k :: Elements(root, t + [e], k) == Elements(root, t, k)
    ensures forall p :: LocalOf(t + [e], p) == if e.Finished? && e.p == p then e.local else LocalOf(t, p)
    ensures Strays(root, t + [e]) == Strays(root, t) && GrownBelow(t, t + [e], e.p)
    ensures Call(t + [e], e.p) == Call(t, e.p)
    ensures Answers(t + [e], e.p) == Answers(t, e.p) + if e.Answered? then [(e.w, e.yielded)] else []
    ensures forall p :: Call(t + [e], p) == Call(t, p)
    ensures forall p :: Ended(t + [e], p) == Ended(t, p) + if e.Finished? && e.p == p then [e.message] else []
    ensures forall p, i: nat :: Since(t + [e], p, i) == Since(t, p, i) + if e.Finished? && e.p == p + [i] then [e.message] else []
  {
    AfterAll(root, t, e);
  }

  /** A saved result is no call, no answer and no end. */
  lemma AfterEvaluation(root: Node, t: seq<Event>, e: Event)
    requires e.Evaluated?
    ensures forall p, i: nat :: Saved(t + [e], p, i) == if e.p == p && e.son == i then e.w else Saved(t, p, i)
    ensures forall p, i: nat :: Evaluations(t + [e], p, i) == Evaluations(t, p, i) + if e.p == p && e.son == i then 1 else 0
    ensures forall p :: Opens(t + [e], p) == Opens(t, p) && LocalOf(t + [e], p) == LocalOf(t, p) && Ended(t + [e], p) == Ended(t, p)
    ensures forall p :: LastAnswer(t + [e], p) == LastAnswer(t, p) && Call(t + [e], p) == Call(t, p)
    ensures forall p, i: nat :: Since(t + [e], p, i) == Since(t, p, i)
    ensures forall k :: Elements(root, t + [e], k) == Elements(root, t, k)
    ensures Strays(root, t + [e]) == Strays(root, t) && GrownBelow(t, t + [e], e.p)
  {
    AfterAll(root, t, e);
  }

  /** All events of `t'` that are not in `t` happen at `p` or below. */
  ghost predicate GrownBelow(t: seq<Event>, t': seq<Event>, p: Path) {
    t <= t' && forall k | |t| <= k < |t'| :: !t'[k].Reset? && p <= t'[k].p
  }

  lemma GrownFurther(t: seq<Event>, t1: seq<Event>, t2: seq<Event>, p: Path)
    requires GrownBelow(t, t1, p) && GrownBelow(t1, t2, p)
    ensures GrownBelow(t, t2, p)
  {
    forall k | |t| <= k < |t2| ensures !t2[k].Reset? && p <= t2[k].p {
      if k < |t1| { assert t1[k] == t2[k]; }
    }
  }

  lemma GrownAbove(t: seq<Event>, t': seq<Event>, p: Path, i: nat)
    requires GrownBelow(t, t', p + [i])
    ensures GrownBelow(t, t', p)
  {
    forall k | |t| <= k < |t'| ensures !t'[k].Reset? && p <= t'[k].p { assert p + [i] <= t'[k].p; }
  }

  lemma {:induction false} Elsewhere(t: seq<Event>, t': seq<Event>, p: Path, q: Path, i: nat)
    requires GrownBelow(t, t', p) && !(p <= q)
    ensures Saved(t', q, i) == Saved(t, q, i) && Evaluations(t', q, i) == Evaluations(t, q, i) && Opens(t', q) == Opens(t, q)
    ensures LastAnswer(t', q) == LastAnswer(t, q) && LocalOf(t', q) == LocalOf(t, q)
    ensures Call(t', q) == Call(t, q) && Answers(t', q) == Answers(t, q) && Ended(t', q) == Ended(t, q)
    ensures !(p <= q + [i]) ==> Since(t', q, i) == Since(t, q, i)
    decreases |t'|
  {
    if t == t' {
    } else {
      assert t <= t'[..|t'| - 1];
      Elsewhere(t, t'[..|t'| - 1], p, q, i);
    }
  }

  /** While node `p` is not called, its son `i` comes to an end as often as it does at all. */
  lemma {:induction false} SinceGrows(t: seq<Event>, t': seq<Event>, p: Path, i: nat, ms: seq<Message>)
    requires GrownBelow(t, t', p + [i]) && Ended(t', p + [i]) == Ended(t, p + [i]) + ms
    ensures Since(t', p, i) == Since(t, p, i) + ms
    decreases |t'|
  {
    if t == t' {
      assert |ms| == 0;
    } else {
      var t1, e := t'[..|t'| - 1], t'[|t'| - 1];
      assert t <= t1;
      EndedGrows(t, t1, p + [i]);
      if e.Finished? && e.p == p + [i] {
        var ms1 := Ended(t1, p + [i])[|Ended(t, p + [i])|..];
        assert Ended(t', p + [i]) == Ended(t, p + [i]) + (ms1 + [e.message]);
        assert ms == ms1 + [e.message] by { SameTail(Ended(t, p + [i]), ms, ms1 + [e.message]); }
        SinceGrows(t, t1, p, i, ms1);
      } else {
        SinceGrows(t, t1, p, i, ms);
      }
    }
  }

  lemma SameTail<T>(a: seq<T>, b: seq<T>, c: seq<T>)
    requires a + b == a + c
    ensures b == c
  {
    assert (a + b)[|a|..] == b && (a + c)[|a|..] == c;
  }

  lemma {:induction false} EndedGrows(t: seq<Event>, t': seq<Event>, p: Path)
    requires t <= t'
    ensures Ended(t, p) <= Ended(t', p)
    decreases |t'|
  {
    if t != t' { EndedGrows(t, t'[..|t'| - 1], p); }
  }

  // --------------------------------------------------------- promises about traces

  lemma {:induction false} TracePrefix(root: Node, t: seq<Event>, k: nat)
    requires TraceOk(root, t) && k < |t|
    ensures TraceOk(root, t[..k]) && EventOk(root, t[..k], t[k])
    decreases |t|
  {
    if k + 1 < |t| {
      TracePrefix(root, t[..|t| - 1], k);
      assert t[..|t| - 1][..k] == t[..k];
    }
  }

  lemma {:induction false} NotEvaluated(t: seq<Event>, j: nat, p: Path, i: nat)
    requires j <= |t|
    ensures Evaluations(t[..j], p, i) <= Evaluations(t, p, i)
    ensures Evaluations(t[..j], p, i) == Evaluations(t, p, i) ==> Saved(t[..j], p, i) == Saved(t, p, i)
    decreases |t|
  {
    if j == |t| {
      assert t[..j] == t;
    } else {
      NotEvaluated(t[..|t| - 1], j, p, i);
      assert t[..|t| - 1][..j] == t[..j];
    }
  }

  lemma {:induction false} NotOpened(t: seq<Event>, j: nat, p: Path)
    requires j <= |t| && forall k | j <= k < |t| :: !(t[k].Ran? && t[k].p == p && t[k].message.Open?)
    ensures Opens(t[..j], p) == Opens(t, p)
    decreases |t|
  {
    if j == |t| {
      assert t[..j] == t;
    } else {
      NotOpened(t[..|t| - 1], j, p);
      assert t[..|t| - 1][..j] == t[..j];
    }
  }

  /** Argument `i` of a stream operator, when it ran at `k`. */
  lemma ArgumentAt(root: Node, t: seq<Event>, k: nat, i: nat)
    requires TraceOk(root, t) && k < |t| && t[k].Ran?
    requires var n := NodeAt(root, t[k].p); n.Op? && n.isStream && i < |n.sons| && n.sons[i].evaluable
    ensures |t[k].args| == |NodeAt(root, t[k].p).sons| && t[k].args[i] == Val(Saved(t[..k], t[k].p, i))
    ensures Evaluations(t[..k], t[k].p, i) == Opens(t[..k + 1], t[k].p)
  {
    TracePrefix(root, t, k);
    assert t[..k] + [t[k]] == t[..k + 1];
  }

  /** From one opening to the next a stream operator sees the same value arguments. */
  lemma {:induction false} ArgumentsStay(root: Node, t: seq<Event>, j: nat, k: nat, i: nat)
    requires TraceOk(root, t) && j < k < |t| && t[j].Ran? && t[k].Ran? && t[j].p == t[k].p
    requires forall m | j < m <= k :: !(t[m].Ran? && t[m].p == t[j].p && t[m].message.Open?)
    requires var n := NodeAt(root, t[j].p); n.Op? && n.isStream && i < |n.sons| && n.sons[i].evaluable
    ensures |t[j].args| == |t[k].args| == |NodeAt(root, t[j].p).sons| && t[j].args[i] == t[k].args[i]
  {
    ArgumentAt(root, t, j, i);
    ArgumentAt(root, t, k, i);
    NotOpened(t[..k + 1], j + 1, t[j].p);
    assert t[..k + 1][..j + 1] == t[..j + 1];
    NotEvaluated(t[..k], j, t[j].p, i);
    assert t[..k][..j] == t[..j];
  }

  // ------------------------------------------------------- trees without streams

  /** No streams, no suppliers, and value mappings that answer at once, whatever they are left. */
  ghost predicate Plain(valueMap: ValueMap, n: Node) {
    match n
    case Leaf(_, _) => true
    case Op(_, key, isStream, _, sons) =>
      && !isStream
      && (forall args, m, l :: valueMap(key, args, m, l).Finish? && valueMap(key, args, m, 0).Finish?
                            && valueMap(key, args, m, l).w == valueMap(key, args, m, 0).w)
      && forall i | 0 <= i < |sons| :: sons[i].evaluable && Plain(valueMap, sons[i])
  }

  /** What such a tree computes. */
  function PlainValue(valueMap: ValueMap, n: Node, m: Message): Word
    requires Plain(valueMap, n)
  {
    match n
    case Leaf(_, value) => value
    case Op(_, key, _, _, sons) =>
      var args := seq(|sons|, i requires 0 <= i < |sons| => Val(PlainValue(valueMap, sons[i], m)));
      valueMap(key, args, m, 0).w
  }

  lemma {:induction false} FollowPrefix(root: Node, valueMap: ValueMap, t: seq<Event>, k: nat)
    requires AllFollow(root, valueMap, t) && k <= |t|
    ensures AllFollow(root, valueMap, t[..k])
    decreases |t|
  {
    if k == |t| {
      assert t[..k] == t;
    } else {
      FollowPrefix(root, valueMap, t[..|t| - 1], k);
      assert t[..|t| - 1][..k] == t[..k];
    }
  }

  lemma {:induction false} CallAt(t: seq<Event>, p: Path) returns (j: nat)
    requires Call(t, p).Ran?
    ensures j < |t| && t[j] == Call(t, p) && t[j].p == p
    decreases |t|
  {
    j := |t| - 1;
    if !(t[j].Ran? && t[j].p == p) { j := CallAt(t[..j], p); }
  }

  /** The last message a son has come to an end with, and its answer. */
  lemma {:induction false} LastEnd(t: seq<Event>, p: Path, i: nat, m: Message) returns (k: nat)
    requires Since(t, p, i) == [m]
    ensures k < |t| && t[k].Finished? && t[k].p == p + [i] && t[k].message == m && t[k].w == LastAnswer(t, p + [i])
    decreases |t|
  {
    k := |t| - 1;
    if t[k].Finished? && t[k].p == p + [i] {
      assert Since(t, p, i) == Since(t[..k], p, i) + [t[k].message];
      assert Since(t, p, i)[|Since(t[..k], p, i)|] == t[k].message;
    } else {
      k := LastEnd(t[..k], p, i, m);
    }
  }

  lemma {:induction false} FinishedFollows(task: Task, answers: seq<(Word, bool)>)
    requires task.Finish?
    ensures Follow(task, answers) == task
    decreases |answers|
  {
    if answers != [] { FinishedFollows(task, answers[..|answers| - 1]); }
  }

  /** In a tree without streams each answer to an ordinary message is the value of the tree. */
  lemma {:induction false} PlainAnswer(root: Node, valueMap: ValueMap, t: seq<Event>, p: Path, m: Message)
    requires TraceOk(root, t) && AllFollow(root, valueMap, t) && Just(t, p, m) && m.Ordinary()
    requires NodeAt(root, p).Op? && Plain(valueMap, NodeAt(root, p))
    ensures t[|t| - 1].w == PlainValue(valueMap, NodeAt(root, p), m)
    decreases |t|
  {
    var n, t1 := NodeAt(root, p), t[..|t| - 1];
    var j := CallAt(t1, p);
    assert t1[j] == t[j] && t1[..j] == t[..j];
    TracePrefix(root, t, j);
    var args := t[j].args;
    forall i | 0 <= i < |n.sons| ensures args[i] == Val(PlainValue(valueMap, n.sons[i], m)) {
      SonAt(root, p, i);
      if n.sons[i].Op? {
        var k := LastEnd(t[..j], p, i, m);
        TraceOkPrefix(root, t, k + 1);
        FollowPrefix(root, valueMap, t, k + 1);
        PlainAnswer(root, valueMap, t[..k + 1], p + [i], m);
      }
    }
    assert args == seq(|n.sons|, i requires 0 <= i < |n.sons| => Val(PlainValue(valueMap, n.sons[i], m)));
    FinishedFollows(valueMap(n.key, args, m, t[j].local), Answers(t1, p));
  }

  lemma TraceOkPrefix(root: Node, t: seq<Event>, k: nat)
    requires TraceOk(root, t) && k <= |t|
    ensures TraceOk(root, t[..k])
  {
    if k < |t| { TracePrefix(root, t, k); } else { assert t[..k] == t; }
  }

  // ------------------------------------------------------------------- evaluation

  class StreamEvaluator {
    const root: Node
    const valueMap: ValueMap
    var tmpArg: map<(Path, nat), Arg>
    var sonresults: map<(Path, nat), Word>
    var local: map<Path, Word>
    var received: map<Path, bool>
    var counter: seq<nat>
    var outside: nat // increments aimed behind the end of the counter array
    var trace: seq<Event>

    constructor (root: Node, valueMap: ValueMap)
      ensures this.root == root && this.valueMap == valueMap && trace == []
      ensures Valid() && forall q :: Settled(q)
    {
      this.root, this.valueMap := root, valueMap;
      tmpArg, sonresults, local, received := map[], map[], map[], map[];
      counter, outside, trace := seq(NOCOUNTERS, _ => 0), 0, [];
    }

    function SonResult(p: Path, i: nat): Word
      reads this`sonresults
    {
      if (p, i) in sonresults then sonresults[(p, i)] else 0
    }

    function TmpArg(p: Path, i: nat): Arg
      reads this`tmpArg
    {
      if (p, i) in tmpArg then tmpArg[(p, i)] else Val(0)
    }

    function Local(p: Path): Word
      reads this`local
    {
      if p in local then local[p] else 0
    }

    function Received(p: Path): bool
      reads this`received
    {
      p in received && received[p]
    }

    /** No value argument of node `q` is ahead of it. */
    ghost predicate Settled(q: Path)
      reads this`trace, this`tmpArg, this`sonresults
    {
      var n := NodeAt(root, q);
      n.Op? ==> forall i | 0 <= i < |n.sons| && n.sons[i].evaluable ::
        && (n.sons[i].Op? ==> Since(trace, q, i) == [])
        && if n.isStream then SonResult(q, i) == Saved(trace, q, i) && Evaluations(trace, q, i) == Opens(trace, q)
           else TmpArg(q, i) == LastArg(trace, q, i)
    }

    lemma SettledIs(p: Path)
      requires NodeAt(root, p).Op?
      ensures Settled(p) <==> forall i | 0 <= i < |NodeAt(root, p).sons| :: Argument(p, i, 0, false, [])
    {
      var n := NodeAt(root, p);
      if forall i | 0 <= i < |n.sons| :: Argument(p, i, 0, false, []) {
        forall i | 0 <= i < |n.sons| && n.sons[i].evaluable
          ensures n.sons[i].Op? ==> Since(trace, p, i) == []
          ensures if n.isStream then SonResult(p, i) == Saved(trace, p, i) && Evaluations(trace, p, i) == Opens(trace, p)
                  else TmpArg(p, i) == LastArg(trace, p, i)
        {
          assert Argument(p, i, 0, false, []);
        }
      }
    }

    /** Every counter that exists holds what its nodes have delivered. */
    ghost predicate CountersOk()
      reads this`counter, this`outside, this`trace
    {
      && |counter| == NOCOUNTERS
      && (forall k | 1 <= k < NOCOUNTERS :: counter[k] == Elements(root, trace, k))
      && outside == Strays(root, trace)
    }

    ghost predicate Valid()
      reads this
    {
      && CountersOk() && TraceOk(root, trace) && AllFollow(root, valueMap, trace)
      && forall q :: Local(q) == LocalOf(trace, q)
    }

    /** What happens at `p` and below leaves all other nodes alone. */
    twostate predicate OnlyBelow(p: Path)
      reads this
    {
      && GrownBelow(old(trace), trace, p)
      && forall q, i: nat | !(p <= q) ::
           SonResult(q, i) == old(SonResult(q, i)) && TmpArg(q, i) == old(TmpArg(q, i))
    }

    /** What happens at `p` and below is no matter of an argument that lies elsewhere. */
    twostate lemma ArgumentStays(new p: Path, new q: Path, new i: nat, new ahead: nat, new loaded: bool, new ms: seq<Message>)
      requires OnlyBelow(p) && !(p <= q) && !(p <= q + [i]) && old(Argument(q, i, ahead, loaded, ms))
      ensures Argument(q, i, ahead, loaded, ms)
    {
      Elsewhere(old(trace), trace, p, q, i);
    }

    lemma NotBelowSon(p: Path, q: Path, i: nat)
      requires !(p <= q) && |p| != |q| + 1
      ensures !(p <= q + [i])
    {}

    twostate lemma StaysSettled(new p: Path, new q: Path)
      requires OnlyBelow(p) && !(p <= q) && |p| != |q| + 1 && old(Settled(q))
      ensures Settled(q)
    {
      var n := NodeAt(root, q);
      if n.Op? {
        forall i | 0 <= i < |n.sons|
          ensures Saved(trace, q, i) == Saved(old(trace), q, i)
          ensures Evaluations(trace, q, i) == Evaluations(old(trace), q, i) && Opens(trace, q) == Opens(old(trace), q)
          ensures Since(trace, q, i) == Since(old(trace), q, i) && LastArg(trace, q, i) == LastArg(old(trace), q, i)
        {
          NotBelowSon(p, q, i);
          Elsewhere(old(trace), trace, p, q, i);
        }
      }
    }

    /**
     Value argument `i` of node `p`: loaded if `loaded`, and `ms` are the messages it has answered
     to since the last call. The saved result of a stream operator is the last one, `ahead`
     evaluations before the openings.
     */
    ghost predicate Argument(p: Path, i: nat, ahead: nat, loaded: bool, ms: seq<Message>)
      reads this`trace, this`tmpArg, this`sonresults
    {
      var n := NodeAt(root, p);
      n.Op? && i < |n.sons| && n.sons[i].evaluable ==>
        && (n.sons[i].Op? ==> Since(trace, p, i) == ms)
        && if n.isStream then
             && SonResult(p, i) == Saved(trace, p, i) && Evaluations(trace, p, i) == Opens(trace, p) + ahead
             && (loaded ==> TmpArg(p, i) == Val(SonResult(p, i)))
           else loaded || TmpArg(p, i) == LastArg(trace, p, i)
    }

    /** Argument `i` as it is loaded for `message`; stream operators are left to `Argument`. */
    ghost predicate Loaded(p: Path, i: nat, message: Message)
      reads this`trace, this`tmpArg
    {
      var n := NodeAt(root, p);
      n.Op? && i < |n.sons| ==>
        && (!n.sons[i].evaluable ==> TmpArg(p, i) == Supplier)
        && (n.sons[i].evaluable && !n.isStream ==>
              TmpArg(p, i) == (if message.Ordinary() then Val(ResultOf(n.sons[i], trace, p + [i])) else LastArg(trace, p, i)))
    }

    /** What argument `i` has answered to when it is loaded for `message`. */
    function Passed(p: Path, message: Message): seq<Message> {
      var n := NodeAt(root, p);
      message.PassedOn(n.Op? && n.isStream)
    }

    /** An answer of a supplier is taken. */
    method NoteAnswer(p: Path, son: nat, message: Message, w: Word, yielded: bool)
      requires Valid() && Follows(root, valueMap, trace, Answered(p, son, message, w, yielded))
      modifies this`trace
      ensures Valid() && OnlyBelow(p) && Call(trace, p) == Call(old(trace), p)
      ensures Answers(trace, p) == Answers(old(trace), p) + [(w, yielded)] && Ended(trace, p) == Ended(old(trace), p)
      ensures forall q | old(Settled(q)) :: Settled(q)
    {
      var e := Answered(p, son, message, w, yielded);
      Grow(root, trace, e);
      FollowGrow(root, valueMap, trace, e);
      AfterAnswer(root, trace, e);
      trace := trace + [e];
    }

    /** The value mapping ends. */
    method NoteEnd(p: Path, message: Message, yielded: bool, w: Word, newLocal: Word)
      requires Valid() && Follows(root, valueMap, trace, Finished(p, message, yielded, w, newLocal))
      modifies this`local, this`received, this`trace
      ensures Valid() && OnlyBelow(p) && Received(p) == yielded && Local(p) == newLocal
      ensures trace == old(trace) + [Finished(p, message, yielded, w, newLocal)] && Ended(trace, p) == Ended(old(trace), p) + [message]
      ensures forall q | p <= q && old(Settled(q)) :: Settled(q)
    {
      var e := Finished(p, message, yielded, w, newLocal);
      Grow(root, trace, e);
      FollowGrow(root, valueMap, trace, e);
      AfterAnswer(root, trace, e);
      trace := trace + [e];
      local := local[p := newLocal];
      received := received[p := yielded];
      forall q, i: nat | p <= q ensures p != q + [i] { assert |p| < |q + [i]|; }
    }

    /** Sends a message to node `p`; what happens, happens there and below. */
    method Eval(p: Path, node: Node, message: Message) returns (w: Word)
      requires Valid() && NodeAt(root, p) == node && forall q | p <= q :: Settled(q)
      modifies this
      ensures Valid() && OnlyBelow(p) && forall q | p <= q :: Settled(q)
      ensures node.Leaf? ==> w == node.value
      ensures w == ResultOf(node, trace, p)
      ensures node.Op? ==> trace != [] && trace[|trace| - 1] == Finished(p, message, Received(p), w, Local(p))
      ensures Ended(trace, p) == Ended(old(trace), p) + if node.Op? then [message] else []
      ensures Plain(valueMap, node) && message.Ordinary() ==> w == PlainValue(valueMap, node, message)
      decreases node, 6
    {
      match node
      case Leaf(_, value) => w := value;
      case Op(_, _, _, _, _) =>
        w := EvalOp(p, node, message);
        if Plain(valueMap, node) && message.Ordinary() { PlainAnswer(root, valueMap, trace, p, message); }
    }

    /** The case of an operator. */
    method EvalOp(p: Path, node: Node, message: Message) returns (w: Word)
      requires Valid() && NodeAt(root, p) == node && node.Op? && forall q | p <= q :: Settled(q)
      modifies this
      ensures Valid() && OnlyBelow(p) && forall q | p <= q :: Settled(q)
      ensures trace != [] && trace[|trace| - 1] == Finished(p, message, Received(p), w, Local(p)) && w == LastAnswer(trace, p)
      ensures Ended(trace, p) == Ended(old(trace), p) + [message]
      decreases node, 5
    {
      LoadArguments(p, node, message);
      var args := LoadedArguments(p, |node.sons|);
      NoteRun(p, node, message, args);
      w := RunTask(p, node, message, args);
    }

    function LoadedArguments(p: Path, n: nat): (args: seq<Arg>)
      reads this
      ensures |args| == n && forall i | 0 <= i < n :: args[i] == TmpArg(p, i)
    {
      seq(n, i requires 0 <= i < n reads this => TmpArg(p, i))
    }

    /** Fills the argument vector of node `p`, son by son. */
    method LoadArguments(p: Path, node: Node, message: Message)
      requires Valid() && NodeAt(root, p) == node && node.Op? && forall q | p <= q :: Settled(q)
      modifies this
      ensures Valid() && OnlyBelow(p) && forall q | p < q :: Settled(q)
      ensures forall i | 0 <= i < |node.sons| :: ReadyFor(p, i, message)
      ensures Ended(trace, p) == Ended(old(trace), p)
      decreases node, 4
    {
      SettledIs(p);
      for i := 0 to |node.sons|
        invariant Valid() && OnlyBelow(p) && forall q | p < q :: Settled(q)
        invariant forall j | 0 <= j < i :: ReadyFor(p, j, message)
        invariant forall j | i <= j < |node.sons| :: Idle(p, j)
        invariant Ended(trace, p) == Ended(old(trace), p)
      {
        label before:
        LoadArgument(p, node, message, i);
        GrownFurther(old(trace), old@before(trace), trace, p);
      }
    }

    /** Argument `i` is loaded for `message`. */
    ghost predicate ReadyFor(p: Path, i: nat, message: Message)
      reads this`trace, this`tmpArg, this`sonresults
    {
      Argument(p, i, message.Ahead(), true, Passed(p, message)) && Loaded(p, i, message)
    }

    /** Argument `i` is as the last call left it. */
    ghost predicate Idle(p: Path, i: nat)
      reads this`trace, this`tmpArg, this`sonresults
    {
      Argument(p, i, 0, false, [])
    }

    method LoadArgument(p: Path, node: Node, message: Message, i: nat)
      requires Valid() && NodeAt(root, p) == node && node.Op? && i < |node.sons|
      requires Idle(p, i) && forall q | p < q :: Settled(q)
      modifies this
      ensures Valid() && OnlyBelow(p) && forall q | p < q :: Settled(q)
      ensures ReadyFor(p, i, message)
      ensures forall j: nat | j != i && old(ReadyFor(p, j, message)) :: ReadyFor(p, j, message)
      ensures forall j: nat | j != i && old(Idle(p, j)) :: Idle(p, j)
      ensures Ended(trace, p) == Ended(old(trace), p)
      decreases node, 3
    {
      if !node.sons[i].evaluable {
        LoadCell(p, i, Supplier);
      } else if !node.isStream {
        LoadSimple(p, node, message, i);
      } else {
        LoadSaved(p, node, message, i);
      }
    }

    /** A simple operator gets new values, except for messages about progress. */
    method LoadSimple(p: Path, node: Node, message: Message, i: nat)
      requires Valid() && NodeAt(root, p) == node && node.Op? && i < |node.sons|
      requires Idle(p, i) && forall q | p < q :: Settled(q)
      requires node.sons[i].evaluable && !node.isStream
      modifies this
      ensures Valid() && OnlyBelow(p) && forall q | p < q :: Settled(q)
      ensures ReadyFor(p, i, message)
      ensures forall j: nat | j != i && old(ReadyFor(p, j, message)) :: ReadyFor(p, j, message)
      ensures forall j: nat | j != i && old(Idle(p, j)) :: Idle(p, j)
      ensures Ended(trace, p) == Ended(old(trace), p)
      decreases node, 1
    {
      if message.Ordinary() {
        var w := EvalSon(p, node, message, i);
        LoadCell(p, i, Val(w));
      }
    }

    /** A stream operator gets the values saved when it was opened. */
    method LoadSaved(p: Path, node: Node, message: Message, i: nat)
      requires Valid() && NodeAt(root, p) == node && node.Op? && i < |node.sons|
      requires Idle(p, i) && forall q | p < q :: Settled(q)
      requires node.sons[i].evaluable && node.isStream
      modifies this
      ensures Valid() && OnlyBelow(p) && forall q | p < q :: Settled(q)
      ensures ReadyFor(p, i, message)
      ensures forall j: nat | j != i && old(ReadyFor(p, j, message)) :: ReadyFor(p, j, message)
      ensures forall j: nat | j != i && old(Idle(p, j)) :: Idle(p, j)
      ensures Ended(trace, p) == Ended(old(trace), p)
      decreases node, 2
    {
      if message.Open? {
        SaveAnswer(p, node, i);
      }
      LoadCell(p, i, Val(SonResult(p, i)));
    }

    /** A value argument is evaluated because its node is opened. */
    method SaveAnswer(p: Path, node: Node, i: nat)
      requires Valid() && NodeAt(root, p) == node && node.Op? && i < |node.sons|
      requires Idle(p, i) && forall q | p < q :: Settled(q)
      requires node.sons[i].evaluable && node.isStream
      modifies this
      ensures Valid() && OnlyBelow(p) && forall q | p < q :: Settled(q)
      ensures Argument(p, i, 1, false, [Message.Open])
      ensures forall j: nat, m | j != i && old(ReadyFor(p, j, m)) :: ReadyFor(p, j, m)
      ensures forall j: nat | j != i && old(Idle(p, j)) :: Idle(p, j)
      ensures Ended(trace, p) == Ended(old(trace), p)
      decreases node, 1
    {
      var w := EvalSon(p, node, Message.Open, i);
      label evaluated:
      KeepResult(p, node, i, w);
      GrownFurther(old(trace), old@evaluated(trace), trace, p);
    }

    method LoadCell(p: Path, i: nat, a: Arg)
      requires Valid()
      modifies this`tmpArg
      ensures Valid() && OnlyBelow(p) && TmpArg(p, i) == a
      ensures forall q | q != p && old(Settled(q)) :: Settled(q)
      ensures forall j: nat | j != i :: TmpArg(p, j) == old(TmpArg(p, j))
    {
      tmpArg := tmpArg[(p, i) := a];
    }

    /** The evaluation of a son leaves the node itself alone. */
    method EvalSon(p: Path, node: Node, message: Message, i: nat) returns (w: Word)
      requires Valid() && NodeAt(root, p) == node && node.Op? && i < |node.sons| && forall q | p < q :: Settled(q)
      modifies this
      ensures Valid() && OnlyBelow(p + [i]) && OnlyBelow(p) && forall q | p < q :: Settled(q)
      ensures forall j: nat, ahead: nat, loaded, ms | j != i && old(Argument(p, j, ahead, loaded, ms)) ::
                Argument(p, j, ahead, loaded, ms)
      ensures forall ahead: nat, loaded, ms | old(Argument(p, i, ahead, loaded, ms)) ::
                Argument(p, i, ahead, loaded, ms + [message])
      ensures forall j: nat, m | j != i && old(Loaded(p, j, m)) :: Loaded(p, j, m)
      ensures Ended(trace, p) == Ended(old(trace), p)
      ensures w == ResultOf(node.sons[i], trace, p + [i])
      ensures node.sons[i].Op? ==>
                trace != [] && trace[|trace| - 1] == Finished(p + [i], message, Received(p + [i]), w, Local(p + [i]))
      decreases node, 0
    {
      SonAt(root, p, i);
      w := Eval(p + [i], node.sons[i], message);
      BelowSon(p, i, message);
    }

    twostate lemma BelowSon(new p: Path, new i: nat, new message: Message)
      requires OnlyBelow(p + [i])
      requires forall q | p < q :: old(Settled(q))
      requires forall q | p + [i] <= q :: Settled(q)
      requires Ended(trace, p + [i]) == Ended(old(trace), p + [i]) + if NodeAt(root, p + [i]).Op? then [message] else []
      requires NodeAt(root, p).Op? && i < |NodeAt(root, p).sons|
      ensures OnlyBelow(p) && forall q | p < q :: Settled(q)
      ensures forall j: nat, ahead: nat, loaded, ms | j != i && old(Argument(p, j, ahead, loaded, ms)) ::
                Argument(p, j, ahead, loaded, ms)
      ensures forall ahead: nat, loaded, ms | old(Argument(p, i, ahead, loaded, ms)) ::
                Argument(p, i, ahead, loaded, ms + [message])
      ensures forall j: nat, m | j != i && old(Loaded(p, j, m)) :: Loaded(p, j, m)
      ensures Ended(trace, p) == Ended(old(trace), p)
    {
      forall k | |old(trace)| <= k < |trace| ensures !trace[k].Reset? && p <= trace[k].p {
        assert p + [i] <= trace[k].p;
      }
      forall q | p < q ensures Settled(q) {
        if !(p + [i] <= q) {
          StaysSettled(p + [i], q);
        }
      }
      OtherArguments(p, i);
      SonArgument(p, i, message);
    }

    twostate lemma OtherArguments(new p: Path, new i: nat)
      requires OnlyBelow(p + [i])
      ensures forall j: nat, ahead: nat, loaded, ms | j != i && old(Argument(p, j, ahead, loaded, ms)) ::
                Argument(p, j, ahead, loaded, ms)
      ensures forall j: nat, m | j != i && old(Loaded(p, j, m)) :: Loaded(p, j, m)
      ensures Ended(trace, p) == Ended(old(trace), p)
    {
      forall j: nat | j != i ensures !(p + [i] <= p + [j]) { assert (p + [j])[|p|] == j && (p + [i])[|p|] == i; }
      Elsewhere(old(trace), trace, p + [i], p, 0);
      forall j: nat, ahead: nat, loaded, ms | j != i && old(Argument(p, j, ahead, loaded, ms))
        ensures Argument(p, j, ahead, loaded, ms)
      {
        ArgumentStays(p + [i], p, j, ahead, loaded, ms);
      }
      forall j: nat | j != i ensures LastAnswer(trace, p + [j]) == LastAnswer(old(trace), p + [j]) {
        Elsewhere(old(trace), trace, p + [i], p + [j], 0);
      }
    }

    twostate lemma SonArgument(new p: Path, new i: nat, new message: Message)
      requires OnlyBelow(p + [i]) && NodeAt(root, p).Op? && i < |NodeAt(root, p).sons|
      requires Ended(trace, p + [i]) == Ended(old(trace), p + [i]) + if NodeAt(root, p + [i]).Op? then [message] else []
      ensures forall ahead: nat, loaded, ms | old(Argument(p, i, ahead, loaded, ms)) ::
                Argument(p, i, ahead, loaded, ms + [message])
    {
      SonAt(root, p, i);
      Elsewhere(old(trace), trace, p + [i], p, i);
      if NodeAt(root, p + [i]).Op? { SinceGrows(old(trace), trace, p, i, [message]); }
    }

    /** The value of an argument is saved for the messages to come. */
    method KeepResult(p: Path, node: Node, i: nat, w: Word)
      requires Valid() && Argument(p, i, 0, false, [Message.Open]) && forall q | p < q :: Settled(q)
      requires NodeAt(root, p) == node && SavedAnswer(root, trace, Evaluated(p, i, w))
      modifies this`sonresults, this`trace
      ensures Valid() && OnlyBelow(p) && forall q | p < q :: Settled(q)
      ensures Argument(p, i, 1, false, [Message.Open])
      ensures forall j: nat, m | old(Loaded(p, j, m)) :: Loaded(p, j, m)
      ensures forall j: nat, ahead: nat, loaded, ms | j != i && old(Argument(p, j, ahead, loaded, ms)) ::
                Argument(p, j, ahead, loaded, ms)
      ensures Ended(trace, p) == Ended(old(trace), p)
    {
      Grow(root, trace, Evaluated(p, i, w));
      FollowGrow(root, valueMap, trace, Evaluated(p, i, w));
      AfterEvaluation(root, trace, Evaluated(p, i, w));
      trace := trace + [Evaluated(p, i, w)];
      sonresults := sonresults[(p, i) := w];
      forall q | p < q ensures Settled(q) { assert old(Settled(q)); }
    }

    /** With its arguments loaded an operator may run. */
    lemma MayRun(p: Path, node: Node, message: Message, args: seq<Arg>, l: Word)
      requires NodeAt(root, p) == node && node.Op? && |args| == |node.sons|
      requires forall i | 0 <= i < |args| :: args[i] == TmpArg(p, i) && ReadyFor(p, i, message)
      ensures RanOnArguments(root, trace, Ran(p, message, args, l))
    {
      var e := Ran(p, message, args, l);
      After(root, trace, e, p, 0, 0);
      forall i | 0 <= i < |node.sons|
        ensures !node.sons[i].evaluable ==> args[i] == Supplier
        ensures node.sons[i].evaluable && node.sons[i].Op? ==> Since(trace, p, i) == message.PassedOn(node.isStream)
        ensures node.sons[i].evaluable && node.isStream ==>
                  args[i] == Val(Saved(trace, p, i)) && Evaluations(trace, p, i) == Opens(trace + [e], p)
        ensures node.sons[i].evaluable && !node.isStream ==>
                  args[i] == (if message.Ordinary() then Val(ResultOf(node.sons[i], trace, p + [i])) else LastArg(trace, p, i))
      {
        assert args[i] == TmpArg(p, i) && ReadyFor(p, i, message);
      }
    }

    /** The value mapping is called with the arguments loaded. */
    method NoteRun(p: Path, node: Node, message: Message, args: seq<Arg>)
      requires Valid() && NodeAt(root, p) == node && node.Op? && |args| == |node.sons|
      requires forall i | 0 <= i < |args| ::
                 args[i] == TmpArg(p, i) && ReadyFor(p, i, message)
      requires forall q | p < q :: Settled(q)
      modifies this`trace
      ensures Valid() && OnlyBelow(p) && forall q | p <= q :: Settled(q)
      ensures Call(trace, p) == Ran(p, message, args, Local(p)) && Answers(trace, p) == []
      ensures Ended(trace, p) == Ended(old(trace), p)
    {
      var e := Ran(p, message, args, Local(p));
      MayRun(p, node, message, args, Local(p));
      AfterAll(root, trace, e);
      FollowGrow(root, valueMap, trace, e);
      Grow(root, trace, e);
      trace := trace + [e];
      forall i | 0 <= i < |args| ensures Argument(p, i, 0, false, []) {}
      SettledIs(p);
      forall q | p <= q ensures Settled(q) { assert p == q || old(Settled(q)); }
    }

    /** The value mapping at work: it sends messages to its suppliers and ends with an answer. */
    method RunTask(p: Path, node: Node, message: Message, args: seq<Arg>) returns (w: Word)
      requires Valid() && NodeAt(root, p) == node && node.Op? && forall q | p <= q :: Settled(q)
      requires Call(trace, p) == Ran(p, message, args, Local(p)) && Answers(trace, p) == []
      modifies this
      ensures Valid() && OnlyBelow(p) && forall q | p <= q :: Settled(q)
      ensures trace != [] && trace[|trace| - 1] == Finished(p, message, Received(p), w, Local(p))
      ensures Ended(trace, p) == Ended(old(trace), p) + [message]
      decreases node, 4
    {
      var start := valueMap(node.key, args, message, Local(p));
      var t: Task := start;
      ghost var call := Call(trace, p);
      while t.Ask?
        invariant Ends(t) && Call(trace, p) == call && t == Follow(start, Answers(trace, p))
        invariant Valid() && OnlyBelow(p) && (forall q | p <= q :: Settled(q)) && Ended(trace, p) == Ended(old(trace), p)
        decreases t.Rank()
      {
        FollowSnoc(start, Answers(trace, p), (0, false));
        var answer, yielded := AskSon(p, node, t.son, t.message);
        t := t.cont(answer, yielded);
      }
      w := t.w;
      label done:
      NoteEnd(p, message, t.yielded, w, t.local);
      forall q | p <= q ensures Settled(q) { assert old@done(Settled(q)); }
    }

    /** One request of the value mapping and its answer. */
    method AskSon(p: Path, node: Node, son: nat, message: Message) returns (w: Word, yielded: bool)
      requires Valid() && NodeAt(root, p) == node && node.Op? && forall q | p <= q :: Settled(q)
      requires var task := Progress(root, valueMap, trace, p); task.Ask? && task.son == son && task.message == message
      modifies this
      ensures Valid() && OnlyBelow(p) && forall q | p <= q :: Settled(q)
      ensures Call(trace, p) == Call(old(trace), p) && Answers(trace, p) == Answers(old(trace), p) + [(w, yielded)]
      ensures Ended(trace, p) == Ended(old(trace), p)
      decreases node, 3
    {
      w, yielded := 0, false;
      if son < |node.sons| && !node.sons[son].evaluable {
        w := SendTo(p, node, message, son);
        yielded := node.sons[son].Op? && Received(p + [son]);
        CallStays(p, son);
        forall q | p <= q ensures Settled(q) { assert p == q || p < q; }
      }
      label asked:
      NoteAnswer(p, son, message, w, yielded);
      forall q | p <= q ensures Settled(q) { assert old@asked(Settled(q)); }
    }

    /** What suppliers do is no part of the call that asks them. */
    twostate lemma CallStays(new p: Path, new i: nat)
      requires OnlyBelow(p + [i])
      ensures Call(trace, p) == Call(old(trace), p) && Answers(trace, p) == Answers(old(trace), p)
      ensures Ended(trace, p) == Ended(old(trace), p)
    {
      Elsewhere(old(trace), trace, p + [i], p, 0);
    }

    method Send(p: Path, node: Node, message: Message, i: nat) returns (w: Word)
      requires Valid() && NodeAt(root, p) == node && node.Op? && i < |node.sons| && forall q | p <= q :: Settled(q)
      modifies this
      ensures Valid() && OnlyBelow(p) && OnlyBelow(p + [i]) && forall q | p < q :: Settled(q)
      ensures !node.sons[i].evaluable ==> Settled(p)
      ensures w == ResultOf(node.sons[i], trace, p + [i])
      ensures node.sons[i].Op? ==>
                trace != [] && trace[|trace| - 1] == Finished(p + [i], message, Received(p + [i]), w, Local(p + [i]))
      decreases node, 1
    {
      SettledIs(p);
      w := EvalSon(p, node, message, i);
      forall j | 0 <= j < |node.sons| && (j != i || !node.sons[i].evaluable) ensures Argument(p, j, 0, false, []) {
        if j != i { assert old(Argument(p, j, 0, false, [])); }
      }
      SettledIs(p);
    }

    /** A message from node `p` to its supplier `i`; requests are counted. */
    method SendTo(p: Path, node: Node, message: Message, i: nat) returns (w: Word)
      requires Valid() && NodeAt(root, p) == node && node.Op? && i < |node.sons| && forall q | p <= q :: Settled(q)
      modifies this
      ensures Valid() && OnlyBelow(p) && OnlyBelow(p + [i]) && forall q | p < q :: Settled(q)
      ensures !node.sons[i].evaluable ==> Settled(p)
      ensures !node.sons[i].evaluable ==>
                SupplierSaid(root, trace, Answered(p, i, message, w, node.sons[i].Op? && Received(p + [i])))
      ensures node.sons[i].Op? ==>
                if message.Request? then trace != [] && trace[|trace| - 1] == Requested(p + [i], Received(p + [i]))
                else Just(trace, p + [i], message)
      decreases node, 2
    {
      w := Send(p, node, message, i);
      if message.Request? && node.sons[i].Op? {
        label answered:
        w := EndRequest(p, node, i, w);
        GrownFurther(old(trace), old@answered(trace), trace, p);
        GrownFurther(old(trace), old@answered(trace), trace, p + [i]);
        forall q | p < q || (p == q && !node.sons[i].evaluable) ensures Settled(q) { assert old@answered(Settled(q)); }
      }
    }

    /** What Request does when its supplier has answered `w0`. */
    method EndRequest(p: Path, node: Node, i: nat, w0: Word) returns (w: Word)
      requires Valid() && NodeAt(root, p) == node && node.Op? && i < |node.sons| && node.sons[i].Op?
      requires trace != [] && trace[|trace| - 1] == Finished(p + [i], Message.Request, Received(p + [i]), w0, Local(p + [i]))
      modifies this`counter, this`outside, this`trace
      ensures Valid() && trace == old(trace) + [Requested(p + [i], Received(p + [i]))]
      ensures GrownBelow(old(trace), trace, p) && GrownBelow(old(trace), trace, p + [i])
      ensures forall q | old(Settled(q)) :: Settled(q)
      ensures w == (if node.sons[i].isStream && !Received(p + [i]) then 0 else w0) && w0 == LastAnswer(trace, p + [i])
    {
      SonAt(root, p, i);
      w := if node.sons[i].isStream && !Received(p + [i]) then 0 else w0;
      CountRequest(p + [i], node.sons[i]);
      GrownAbove(old(trace), trace, p, i);
    }

    /** The end of Request: the counter of the node goes up if an element came. */
    method CountRequest(p: Path, node: Node)
      requires Valid() && NodeAt(root, p) == node && node.Op?
      requires Just(trace, p, Message.Request) && trace[|trace| - 1].yielded == Received(p)
      modifies this`counter, this`outside, this`trace
      ensures Valid() && trace == old(trace) + [Requested(p, Received(p))] && OnlyBelow(p)
      ensures forall q | old(Settled(q)) :: Settled(q)
      ensures LastAnswer(trace, p) == LastAnswer(old(trace), p) && Ended(trace, p) == Ended(old(trace), p)
    {
      if Received(p) && node.counterNo != 0 {
        if node.counterNo < |counter| {
          counter := counter[node.counterNo := counter[node.counterNo] + 1];
        } else {
          outside := outside + 1;
        }
      }
      NoteRequest(p);
    }

    /** The request itself, once it is counted. */
    method NoteRequest(p: Path)
      requires TraceOk(root, trace) && AllFollow(root, valueMap, trace) && forall q :: Local(q) == LocalOf(trace, q)
      requires |counter| == NOCOUNTERS && Counted(Requested(p, Received(p)))
      requires NodeAt(root, p).Op? && Just(trace, p, Message.Request) && trace[|trace| - 1].yielded == Received(p)
      modifies this`trace
      ensures Valid() && trace == old(trace) + [Requested(p, Received(p))] && OnlyBelow(p)
      ensures forall q | old(Settled(q)) :: Settled(q)
      ensures LastAnswer(trace, p) == LastAnswer(old(trace), p) && Ended(trace, p) == Ended(old(trace), p)
    {
      var e := Requested(p, Received(p));
      AfterAll(root, trace, e);
      FollowGrow(root, valueMap, trace, e);
      Grow(root, trace, e);
      trace := trace + [e];
    }

    /** The counters are those after event `e`. */
    ghost predicate Counted(e: Event)
      requires |counter| == NOCOUNTERS && e.Requested?
      reads this
    {
      var k := CounterOf(root, e.p);
      && (forall i | 1 <= i < NOCOUNTERS :: counter[i] == Elements(root, trace, i) + if e.yielded && i == k then 1 else 0)
      && outside == Strays(root, trace) + if e.yielded && k >= NOCOUNTERS then 1 else 0
    }


    method ResetCounters()
      requires Valid()
      modifies this`counter, this`trace
      ensures Valid() && trace == old(trace) + [Reset]
      ensures forall k | 1 <= k < NOCOUNTERS :: counter[k] == 0
      ensures forall q | old(Settled(q)) :: Settled(q)
    {
      for i := 1 to NOCOUNTERS
        invariant |counter| == NOCOUNTERS && (forall k | 1 <= k < i :: counter[k] == 0)
        invariant trace == old(trace) && outside == old(outside) && local == old(local)
      {
        counter := counter[i := 0];
      }
      AfterAll(root, trace, Reset);
      Grow(root, trace, Reset);
      FollowGrow(root, valueMap, trace, Reset);
      trace := trace + [Reset];
    }

    /** A request from outside, with all that Request does. */
    method Request() returns (w: Word)
      requires Valid() && forall q :: Settled(q)
      modifies this
      ensures Valid() && (forall q :: Settled(q)) && old(trace) <= trace
      ensures root.Op? ==> trace != [] && trace[|trace| - 1] == Requested([], Received([]))
      ensures w == if root.Op? && root.isStream && !Received([]) then 0 else ResultOf(root, trace, [])
      ensures Ended(trace, []) == Ended(old(trace), []) + if root.Op? then [Message.Request] else []
      ensures Plain(valueMap, root) ==> w == PlainValue(valueMap, root, Message.Request)
    {
      w := Eval([], root, Message.Request);
      forall q: Path ensures Settled(q) { assert [] <= q; }
      if root.Op? {
        if root.isStream && !Received([]) {
          w := 0;
        }
        CountRequest([], root);
      }
    }
  }
}
