/**
 Sound algebras and well-typed operator trees: the discipline under which evaluation cannot
 go wrong, and the two facts it gives, type soundness and the frame of a subtree.
 */
module TypedTrees {
  import opened QueryTerms
  import opened Annotation
  import opened OperatorTree

  // ------------------------------------------------------------ sound algebras

  ghost predicate HaveTypes(cx: Context, ws: seq<Word>, ts: seq<Type>) {
    |ws| == |ts| && forall i | 0 <= i < |ws| :: cx.alg.hasType(ws[i], ts[i])
  }

  /** Arguments as evaluation hands them over: values where they are evaluated, nodes elsewhere. */
  ghost predicate ArgsMatch(cx: Context, args: seq<Arg>, ts: seq<Type>, requests: bool) {
    && |args| == |ts|
    && forall i | 0 <= i < |ts| ::
         if IsValueType(cx, ts[i]) && !requests then args[i].Val? && cx.alg.hasType(args[i].w, ts[i])
         else args[i].Supplier?
  }

  /** A value mapping that calls functions with fitting arguments and returns an `r`. */
  ghost predicate ProgramOk(cx: Context, p: Program, ts: seq<Type>, requests: bool, r: Type)
    requires Terminates(p)
    decreases p.Rank()
  {
    match p
    case Return(w) => cx.alg.hasType(w, r)
    case Ask(_, i, ws, cont) =>
      && i < |ts|
      && if Callable(cx, ts[i]) then
           && HaveTypes(cx, ws, MapParams(ts[i]))
           && forall w | cx.alg.hasType(w, MapResult(ts[i])) :: ProgramOk(cx, cont(w), ts, requests, r)
         else
           && requests && IsValueType(cx, ts[i]) && ws == []
           && forall w | cx.alg.hasType(w, ts[i]) :: ProgramOk(cx, cont(w), ts, requests, r)
  }

  /** Evaluation function `sel` of the operator takes arguments of types `ts` to an `r`. */
  ghost predicate SignatureOk(cx: Context, key: OpKey, sel: int, ts: seq<Type>, r: Type) {
    forall args | ArgsMatch(cx, args, ts, cx.alg.requestsArgs(key)) ::
      ProgramOk(cx, cx.alg.valueMap(key, sel, args), ts, cx.alg.requestsArgs(key), r)
  }

  ghost predicate ConstsOk(cx: Context, cs: seq<Constant>) {
    forall i | 0 <= i < |cs| ::
      cs[i].ok && IsValueType(cx, cs[i].ty) && cx.alg.hasType(cs[i].w, cs[i].ty)
  }

  /** What soundness asks of one accepted type mapping. */
  ghost predicate AcceptanceOk(cx: Context, key: OpKey, ps: seq<TypedArg>, res: TypeMapResult)
    requires !res.Rejected?
  {
    && (forall i | 0 <= i < |ps| :: Clean(ps[i].t))
    && (Clean(res.result) ==> (cx.cat.isType(res.result) || IsStream(res.result)) && !IsMap(res.result))
    && ConstsOk(cx, Extra(res))
  }

  ghost predicate AlgebraOk(cx: Context) {
    forall key, ps :: !TryOp(cx, key, ps).Rejected? ==> AcceptanceOk(cx, key, ps, TryOp(cx, key, ps))
  }

  ghost predicate CatalogOk(cx: Context) {
    && (forall t: Type :: cx.cat.isType(t) ==> Clean(t))
    && (forall n: string :: cx.cat.isType(TSym(n)) ==> cx.cat.isTypeName(n))
    // a composite type starts with a constructor that is no type by itself
    && (forall ts: seq<Type> :: cx.cat.isType(TList(ts)) ==>
          ts != [] && ts[0].TSym? && cx.cat.isTypeName(ts[0].name) && !cx.cat.isType(ts[0]))
    && cx.cat.isTypeName("map") && !cx.cat.isType(TSym("map"))
    && cx.cat.isTypeName("stream") && !cx.cat.isType(TSym("stream"))
    && (forall x | x in cx.cat.objects ::
          var o := cx.cat.objects[x];
          IsValueType(cx, o.ty) && (o.isDefined ==> cx.alg.hasType(o.w, o.ty)))
    && (forall x | x in cx.cat.operators :: forall i | 0 <= i < |cx.cat.operators[x]| ::
          cx.cat.operators[x][i].op < OPBASE && cx.cat.operators[x][i].alg > 0)
  }

  ghost predicate ContextOk(cx: Context) { AlgebraOk(cx) && CatalogOk(cx) }

  // ----------------------------------------------------------- well-typed trees

  /** For the functions a subtree lies in: the types of their parameters. */
  type Scope = map<nat, seq<Type>>

  function SonTypes(sons: seq<OpNode>): seq<Type> { TypesBy(sons, (node: OpNode) => node.typeExpr) }

  /** The tree computes a value of type `t` inside the functions of `d`; `n` vectors exist. */
  ghost predicate Typed(cx: Context, node: OpNode, t: Type, d: Scope, n: nat)
    decreases node, 1
  {
    && IsValueType(cx, t)
    && match node.kind
       case KObject(w) => cx.alg.hasType(w, t)
       case KIndirect(f, p) => f in d && 1 <= p <= |d[f]| && d[f][p - 1] == t
       case KHalt => false
       case KOperator(alg, opFunId, sons) =>
         if node.IsAbstraction() then
           && sons != []
           && TypedFun(cx, sons[0], d, n)
           && MapResult(sons[0].typeExpr) == t
           && |sons| == |MapParams(sons[0].typeExpr)| + 1
           && forall i | 1 <= i < |sons| ::
                sons[i].evaluable && Typed(cx, sons[i], MapParams(sons[0].typeExpr)[i - 1], d, n)
         else
           var key := OpKey(alg, opFunId % OPBASE);
           && SignatureOk(cx, key, opFunId / OPBASE, SonTypes(sons), t)
           && forall i | 0 <= i < |sons| :: TypedSon(cx, sons[i], cx.alg.requestsArgs(key), d, n)
  }

  /** The tree is a function that can be called. */
  ghost predicate TypedFun(cx: Context, node: OpNode, d: Scope, n: nat)
    decreases node, 2
  {
    && Callable(cx, node.typeExpr) && node.isFun && !node.evaluable
    && 1 <= node.funNo <= n && node.funNo !in d
    && Typed(cx, node, MapResult(node.typeExpr), d[node.funNo := MapParams(node.typeExpr)], n)
  }

  /** The tree is fit to be a son: evaluable exactly when the operator is to get its value. */
  ghost predicate TypedSon(cx: Context, node: OpNode, requests: bool, d: Scope, n: nat)
    decreases node, 3
  {
    if IsValueType(cx, node.typeExpr) then
      node.evaluable == !requests && !node.isFun && Typed(cx, node, node.typeExpr, d, n)
    else if Callable(cx, node.typeExpr) then !node.evaluable && node.isFun && TypedFun(cx, node, d, n)
    else !node.evaluable
  }

  /** The vectors hold well-typed arguments for all functions in scope. */
  ghost predicate VectorsOk(cx: Context, v: Vectors, d: Scope, n: nat) {
    && |v| >= n
    && (forall f | 0 <= f < |v| :: |v[f]| == MAXARG)
    && forall f | f in d ::
         && 1 <= f <= n && |d[f]| <= MAXPLAIN
         && forall j | 0 <= j < |d[f]| :: cx.alg.hasType(v[f - 1][j], d[f][j])
  }

  /** The same arguments for every function in scope. */
  ghost predicate SameArguments(v: Vectors, v': Vectors, d: Scope) {
    forall f, p | f in d && 1 <= p <= |d[f]| :: Slot(v, f, p) == Slot(v', f, p)
  }

  lemma LoadSlots(v: Vectors, f: nat, ws: seq<Word>)
    requires 1 <= f <= |v| && |ws| <= |v[f - 1]|
    ensures var v' := Load(v, f, ws);
            && |v'| == |v|
            && (forall g | 0 <= g < |v| :: |v'[g]| == |v[g]|)
            && (forall g: nat, p: nat | g != f :: Slot(v', g, p) == Slot(v, g, p))
            && (forall p: nat :: Slot(v', f, p) == if 1 <= p <= |ws| then ws[p - 1] else Slot(v, f, p))
  {}

  lemma LoadOk(cx: Context, v: Vectors, f: nat, ws: seq<Word>, ts: seq<Type>, d: Scope, n: nat)
    requires VectorsOk(cx, v, d, n)
    requires 1 <= f <= n && f !in d && |ts| <= MAXPLAIN && HaveTypes(cx, ws, ts)
    ensures VectorsOk(cx, Load(v, f, ws), d[f := ts], n)
  {
    LoadSlots(v, f, ws);
  }

  lemma LoadSame(v: Vectors, v': Vectors, f: nat, ws: seq<Word>, ts: seq<Type>, d: Scope)
    requires SameArguments(v, v', d) && f !in d && |ws| == |ts|
    requires 1 <= f <= |v| && |ws| <= |v[f - 1]| && f <= |v'| && |ws| <= |v'[f - 1]|
    ensures SameArguments(Load(v, f, ws), Load(v', f, ws), d[f := ts])
  {
    LoadSlots(v, f, ws);
    LoadSlots(v', f, ws);
  }

  // ------------------------------------------------------------ type soundness

  /** Evaluating a well-typed tree yields a value of its type. */
  lemma {:induction false} Soundness(cx: Context, node: OpNode, t: Type, d: Scope, n: nat, v: Vectors)
    requires Typed(cx, node, t, d, n) && VectorsOk(cx, v, d, n)
    ensures cx.alg.hasType(Denote(cx, node, v), t)
    decreases node, 2
  {
    match node.kind
    case KObject(_) =>
    case KIndirect(f, p) => assert cx.alg.hasType(v[f - 1][p - 1], d[f][p - 1]);
    case KOperator(_, _, _) =>
      if node.IsAbstraction() { ApplicationSoundness(cx, node, t, d, n, v); }
      else { OperatorSoundness(cx, node, t, d, n, v); }
  }

  lemma {:induction false} ApplicationSoundness(cx: Context, node: OpNode, t: Type, d: Scope, n: nat, v: Vectors)
    requires Typed(cx, node, t, d, n) && VectorsOk(cx, v, d, n) && node.IsAbstraction()
    ensures cx.alg.hasType(Denote(cx, node, v), t)
    decreases node, 1
  {
    var sons := node.kind.sons;
    var ts := MapParams(sons[0].typeExpr);
    var ws := seq(|sons| - 1, i requires 0 <= i < |sons| - 1 => Denote(cx, sons[i + 1], v));
    forall i | 0 <= i < |ws| ensures cx.alg.hasType(ws[i], ts[i]) {
      assert Typed(cx, sons[i + 1], ts[i], d, n);
      Soundness(cx, sons[i + 1], ts[i], d, n, v);
    }
    UnfoldCall(cx, node, ws, v);
    CallSoundness(cx, sons[0], ws, d, n, v);
  }

  lemma {:induction false} OperatorSoundness(cx: Context, node: OpNode, t: Type, d: Scope, n: nat, v: Vectors)
    requires Typed(cx, node, t, d, n) && VectorsOk(cx, v, d, n) && node.kind.KOperator? && !node.IsAbstraction()
    ensures cx.alg.hasType(Denote(cx, node, v), t)
    decreases node, 1
  {
    var sons := node.kind.sons;
    var requests := cx.alg.requestsArgs(OpKey(node.kind.alg, node.kind.opFunId % OPBASE));
    forall i | 0 <= i < |sons| && sons[i].evaluable
      ensures cx.alg.hasType(Denote(cx, sons[i], v), sons[i].typeExpr)
    {
      assert TypedSon(cx, sons[i], requests, d, n);
      Soundness(cx, sons[i], sons[i].typeExpr, d, n, v);
    }
    NodeArgsMatch(cx, sons, requests, d, n, v);
    UnfoldOperator(cx, node, v);
    ProgramSoundness(cx, OperatorProgram(cx, node, v), node, t, d, n, v);
  }

  /** Evaluable sons with well-typed values make a fitting argument vector. */
  lemma NodeArgsMatch(cx: Context, sons: seq<OpNode>, requests: bool, d: Scope, n: nat, v: Vectors)
    requires forall i | 0 <= i < |sons| :: TypedSon(cx, sons[i], requests, d, n)
    requires forall i | 0 <= i < |sons| && sons[i].evaluable :: cx.alg.hasType(Denote(cx, sons[i], v), sons[i].typeExpr)
    ensures ArgsMatch(cx, NodeArgs(cx, sons, v), SonTypes(sons), requests)
  {
    forall i | 0 <= i < |sons|
      ensures sons[i].evaluable == (IsValueType(cx, sons[i].typeExpr) && !requests)
    {
      assert TypedSon(cx, sons[i], requests, d, n);
    }
  }

  lemma {:induction false} ProgramSoundness(cx: Context, p: Program, node: OpNode, t: Type, d: Scope, n: nat, v: Vectors)
    requires Terminates(p) && node.kind.KOperator? && !node.IsAbstraction()
    requires Typed(cx, node, t, d, n) && VectorsOk(cx, v, d, n)
    requires ProgramOk(cx, p, SonTypes(node.kind.sons),
                       cx.alg.requestsArgs(OpKey(node.kind.alg, node.kind.opFunId % OPBASE)), t)
    ensures cx.alg.hasType(DenoteProgram(cx, p, node, v), t)
    decreases node, 1, p.Rank()
  {
    if p.Ask? {
      var son := node.kind.sons[p.son];
      assert TypedSon(cx, son, cx.alg.requestsArgs(OpKey(node.kind.alg, node.kind.opFunId % OPBASE)), d, n);
      if Callable(cx, son.typeExpr) {
        CallSoundness(cx, son, p.args, d, n, v);
      } else {
        Soundness(cx, son, son.typeExpr, d, n, v);
      }
      ProgramSoundness(cx, p.cont(DenoteCall(cx, son, p.args, v)), node, t, d, n, v);
    }
  }

  lemma {:induction false} CallSoundness(cx: Context, f: OpNode, ws: seq<Word>, d: Scope, n: nat, v: Vectors)
    requires TypedFun(cx, f, d, n) && VectorsOk(cx, v, d, n)
    requires HaveTypes(cx, ws, MapParams(f.typeExpr))
    ensures cx.alg.hasType(DenoteCall(cx, f, ws, v), MapResult(f.typeExpr))
    decreases f, 3
  {
    LoadOk(cx, v, f.funNo, ws, MapParams(f.typeExpr), d, n);
    Soundness(cx, f, MapResult(f.typeExpr), d[f.funNo := MapParams(f.typeExpr)], n, Load(v, f.funNo, ws));
  }

  // --------------------------------------------------------------------- frame

  /** A well-typed tree depends on nothing but the arguments of the functions it lies in. */
  lemma {:induction false} Frame(cx: Context, node: OpNode, t: Type, d: Scope, n: nat, v: Vectors, v': Vectors)
    requires Typed(cx, node, t, d, n) && SameArguments(v, v', d)
    requires VectorsOk(cx, v, d, n) && VectorsOk(cx, v', d, n)
    ensures Denote(cx, node, v) == Denote(cx, node, v')
    decreases node, 2
  {
    match node.kind
    case KObject(_) =>
    case KIndirect(f, p) => 
    case KOperator(_, _, _) =>
      if node.IsAbstraction() { ApplicationFrame(cx, node, t, d, n, v, v'); }
      else { OperatorFrame(cx, node, t, d, n, v, v'); }
  }

  lemma {:induction false} ApplicationFrame(cx: Context, node: OpNode, t: Type, d: Scope, n: nat, v: Vectors, v': Vectors)
    requires Typed(cx, node, t, d, n) && SameArguments(v, v', d) && node.IsAbstraction()
    requires VectorsOk(cx, v, d, n) && VectorsOk(cx, v', d, n)
    ensures Denote(cx, node, v) == Denote(cx, node, v')
    decreases node, 1
  {
    var sons := node.kind.sons;
    var ts := MapParams(sons[0].typeExpr);
    var ws := seq(|sons| - 1, i requires 0 <= i < |sons| - 1 => Denote(cx, sons[i + 1], v));
    forall i | 0 <= i < |ws|
      ensures ws[i] == Denote(cx, sons[i + 1], v') && cx.alg.hasType(ws[i], ts[i])
    {
      assert Typed(cx, sons[i + 1], ts[i], d, n);
      Frame(cx, sons[i + 1], ts[i], d, n, v, v');
      Soundness(cx, sons[i + 1], ts[i], d, n, v);
    }
    UnfoldCall(cx, node, ws, v);
    UnfoldCall(cx, node, ws, v');
    CallFrame(cx, sons[0], ws, d, n, v, v');
  }

  lemma {:induction false} OperatorFrame(cx: Context, node: OpNode, t: Type, d: Scope, n: nat, v: Vectors, v': Vectors)
    requires Typed(cx, node, t, d, n) && SameArguments(v, v', d) && node.kind.KOperator? && !node.IsAbstraction()
    requires VectorsOk(cx, v, d, n) && VectorsOk(cx, v', d, n)
    ensures Denote(cx, node, v) == Denote(cx, node, v')
    decreases node, 1
  {
    var sons := node.kind.sons;
    var requests := cx.alg.requestsArgs(OpKey(node.kind.alg, node.kind.opFunId % OPBASE));
    forall i | 0 <= i < |sons| && sons[i].evaluable
      ensures Denote(cx, sons[i], v) == Denote(cx, sons[i], v')
      ensures cx.alg.hasType(Denote(cx, sons[i], v), sons[i].typeExpr)
    {
      assert TypedSon(cx, sons[i], requests, d, n);
      Frame(cx, sons[i], sons[i].typeExpr, d, n, v, v');
      Soundness(cx, sons[i], sons[i].typeExpr, d, n, v);
    }
    NodeArgsMatch(cx, sons, requests, d, n, v);
    assert NodeArgs(cx, sons, v) == NodeArgs(cx, sons, v');
    UnfoldOperator(cx, node, v);
    UnfoldOperator(cx, node, v');
    ProgramFrame(cx, OperatorProgram(cx, node, v), node, t, d, n, v, v');
  }

  lemma {:induction false} ProgramFrame(cx: Context, p: Program, node: OpNode, t: Type, d: Scope, n: nat, v: Vectors, v': Vectors)
    requires Terminates(p) && node.kind.KOperator? && !node.IsAbstraction()
    requires Typed(cx, node, t, d, n) && SameArguments(v, v', d)
    requires VectorsOk(cx, v, d, n) && VectorsOk(cx, v', d, n)
    requires ProgramOk(cx, p, SonTypes(node.kind.sons),
                       cx.alg.requestsArgs(OpKey(node.kind.alg, node.kind.opFunId % OPBASE)), t)
    ensures DenoteProgram(cx, p, node, v) == DenoteProgram(cx, p, node, v')
    decreases node, 1, p.Rank()
  {
    if p.Ask? {
      var son := node.kind.sons[p.son];
      assert TypedSon(cx, son, cx.alg.requestsArgs(OpKey(node.kind.alg, node.kind.opFunId % OPBASE)), d, n);
      if Callable(cx, son.typeExpr) {
        CallFrame(cx, son, p.args, d, n, v, v');
        CallSoundness(cx, son, p.args, d, n, v);
      } else {
        Frame(cx, son, son.typeExpr, d, n, v, v');
        Soundness(cx, son, son.typeExpr, d, n, v);
      }
      ProgramFrame(cx, p.cont(DenoteCall(cx, son, p.args, v)), node, t, d, n, v, v');
    }
  }

  lemma {:induction false} CallFrame(cx: Context, f: OpNode, ws: seq<Word>, d: Scope, n: nat, v: Vectors, v': Vectors)
    requires TypedFun(cx, f, d, n) && SameArguments(v, v', d)
    requires VectorsOk(cx, v, d, n) && VectorsOk(cx, v', d, n)
    requires HaveTypes(cx, ws, MapParams(f.typeExpr))
    ensures DenoteCall(cx, f, ws, v) == DenoteCall(cx, f, ws, v')
    decreases f, 3
  {
    var ts := MapParams(f.typeExpr);
    LoadOk(cx, v, f.funNo, ws, ts, d, n);
    LoadOk(cx, v', f.funNo, ws, ts, d, n);
    LoadSame(v, v', f.funNo, ws, ts, d);
    Frame(cx, f, MapResult(f.typeExpr), d[f.funNo := ts], n, Load(v, f.funNo, ws), Load(v', f.funNo, ws));
  }
}
