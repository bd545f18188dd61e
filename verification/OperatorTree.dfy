/**
 The operator tree built from an annotated query, and what a tree denotes when the argument
 vectors are read as an environment: a call gives the body vectors in which the vector of the
 called function holds the arguments, and nothing else changes for anybody.
 */
module OperatorTree {
  import opened Basics
  import opened QueryTerms
  import opened Annotation

  function LeafNode(k: Kind, t: Type, evaluable: bool): OpNode {
    OpNode(k, t, evaluable, false, 0, 0, false, 0)
  }

  function ValueAt(vals: seq<ValueEntry>, i: nat): Word {
    if i < |vals| then vals[i].value else 0
  }

  function Subtree(cx: Context, a: TAnn, vals: seq<ValueEntry>): OpNode
    decreases a, 1
  {
    match a.a
    case AConst(v) => LeafNode(KObject(ValueAt(vals, v)), a.t, true)
    case AObject(_, v) => LeafNode(KObject(ValueAt(vals, v)), a.t, true)
    case AIdentifier(_) => LeafNode(KObject(0), a.t, false)
    case AVariable(_, p, f) =>
      if IsMap(a.t) then LeafNode(KHalt, a.t, false) else LeafNode(KIndirect(f, p), a.t, !IsStream(a.t))
    case AApplyOp(alg, opFunId, args) =>
      var key := OpKey(alg, opFunId % OPBASE);
      var sons := Subtrees(cx, args, vals, cx.alg.requestsArgs(key));
      OpNode(KOperator(alg, opFunId, sons), a.t, !IsStream(a.t), false, 0, 0, cx.alg.usesMemory(key), 0)
    case AAbstraction(body, n) =>
      Subtree(cx, body, vals).(evaluable := false, typeExpr := a.t, isFun := true, funNo := n)
    case AApplyAbs(f, args) =>
      var fun := Subtree(cx, f, vals);
      LeafNode(KOperator(0, 0, [fun] + Subtrees(cx, args, vals, false)), a.t, !IsStream(a.t))
    case AArgList(elems) => LeafNode(KOperator(0, 1, Subtrees(cx, elems, vals, false)), a.t, false)
    case ACounterDef(no, e) =>
      var node := Subtree(cx, e, vals);
      if node.kind.KOperator? then node.(counterNo := no) else node
    case AMemoryDef(size, e) =>
      var node := Subtree(cx, e, vals);
      if node.kind.KOperator? && node.usesMemory then node.(memorySize := size % SIZET) else node
    case AOperator(_, _) => LeafNode(KHalt, a.t, false)
    case AFunctionError => LeafNode(KHalt, a.t, false)
  }

  /** The sons of a node; an operator that requests its arguments gets none evaluated. */
  function Subtrees(cx: Context, args: seq<TAnn>, vals: seq<ValueEntry>, requests: bool): (r: seq<OpNode>)
    ensures |r| == |args|
    ensures forall i | 0 <= i < |args| ::
              r[i] == var s := Subtree(cx, args[i], vals); if requests then s.(evaluable := false) else s
    decreases args, 0
  {
    if args == [] then []
    else
      var s := Subtree(cx, args[0], vals);
      [if requests then s.(evaluable := false) else s] + Subtrees(cx, args[1..], vals, requests)
  }

  // ------------------------------------------------------------ argument vectors

  type Vectors = seq<seq<Word>>

  /** The vectors SubtreeX allocates: one per function, all slots null. */
  ghost predicate Allocated(v: Vectors, n: nat) {
    |v| >= n && forall f | 0 <= f < |v| :: |v[f]| == MAXARG
  }

  /** No stream slot is set, so no variable is taken for a stream of its caller. */
  ghost predicate NoStreamSlots(v: Vectors) {
    forall f, j | 0 <= f < |v| && MAXPLAIN <= j < |v[f]| :: v[f][j] == 0
  }

  function Slot(v: Vectors, f: nat, p: nat): Word {
    if 1 <= f <= |v| && 1 <= p <= |v[f - 1]| then v[f - 1][p - 1] else 0
  }

  /** Writes the arguments `ws` into the first slots of the vector of function `f`. */
  function Load(v: Vectors, f: nat, ws: seq<Word>): Vectors {
    if 1 <= f <= |v| && |ws| <= |v[f - 1]| then v[f - 1 := ws + v[f - 1][|ws|..]] else v
  }

  // ----------------------------------------------------------------- denotation

  ghost function Denote(cx: Context, node: OpNode, v: Vectors): Word
    decreases node, 2
  {
    match node.kind
    case KObject(w) => w
    case KIndirect(f, p) => Slot(v, f, p)
    case KHalt => 0
    case KOperator(alg, opFunId, sons) =>
      if node.IsAbstraction() then
        if sons == [] then 0
        else
          var ws := seq(|sons| - 1, i requires 0 <= i < |sons| - 1 => Denote(cx, sons[i + 1], v));
          Denote(cx, sons[0], Load(v, sons[0].funNo, ws))
      else
        var args := seq(|sons|, i requires 0 <= i < |sons| =>
          if sons[i].evaluable then Val(Denote(cx, sons[i], v)) else Supplier);
        DenoteProgram(cx, cx.alg.valueMap(OpKey(alg, opFunId % OPBASE), opFunId / OPBASE, args), node, v)
  }

  /** Runs a value mapping; its requests are answered by the sons of `node`. */
  ghost function DenoteProgram(cx: Context, p: Program, node: OpNode, v: Vectors): Word
    requires Terminates(p) && node.kind.KOperator?
    decreases node, 1, p.Rank()
  {
    match p
    case Return(w) => w
    case Ask(_, i, ws, cont) =>
      DenoteProgram(cx, cont(if i < |node.kind.sons| then DenoteCall(cx, node.kind.sons[i], ws, v) else 0), node, v)
  }

  /** The answer of a requested son: a function sees the arguments, anything else ignores them. */
  ghost function DenoteCall(cx: Context, son: OpNode, ws: seq<Word>, v: Vectors): Word
    decreases son, 3
  {
    Denote(cx, son, if son.isFun then Load(v, son.funNo, ws) else v)
  }

  /** The arguments an operator node hands to its value mapping. */
  ghost function NodeArgs(cx: Context, sons: seq<OpNode>, v: Vectors): (r: seq<Arg>)
    ensures |r| == |sons|
  {
    seq(|sons|, i requires 0 <= i < |sons| => if sons[i].evaluable then Val(Denote(cx, sons[i], v)) else Supplier)
  }

  ghost function OperatorProgram(cx: Context, node: OpNode, v: Vectors): Mapping
    requires node.kind.KOperator?
  {
    cx.alg.valueMap(OpKey(node.kind.alg, node.kind.opFunId % OPBASE), node.kind.opFunId / OPBASE,
                    NodeArgs(cx, node.kind.sons, v))
  }

  lemma UnfoldOperator(cx: Context, node: OpNode, v: Vectors)
    requires node.kind.KOperator? && !node.IsAbstraction()
    ensures Denote(cx, node, v) == DenoteProgram(cx, OperatorProgram(cx, node, v), node, v)
  {
    var sons := node.kind.sons;
    assert NodeArgs(cx, sons, v) == seq(|sons|, i requires 0 <= i < |sons| =>
      if sons[i].evaluable then Val(Denote(cx, sons[i], v)) else Supplier);
  }

  lemma UnfoldCall(cx: Context, node: OpNode, ws: seq<Word>, v: Vectors)
    requires node.IsAbstraction() && node.kind.sons != [] && |ws| == |node.kind.sons| - 1
    requires forall i | 0 <= i < |ws| :: ws[i] == Denote(cx, node.kind.sons[i + 1], v)
    ensures Denote(cx, node, v) == Denote(cx, node.kind.sons[0], Load(v, node.kind.sons[0].funNo, ws))
  {
    var sons := node.kind.sons;
    assert ws == seq(|sons| - 1, i requires 0 <= i < |sons| - 1 => Denote(cx, sons[i + 1], v));
  }
}
