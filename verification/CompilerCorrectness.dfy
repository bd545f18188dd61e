/**
 Compiler correctness: the operator tree built from the annotation of a lexically scoped
 query is well typed, and over the argument vectors it denotes what the direct semantics
 says, nested and applied abstractions and parameter functions included.
 */
module CompilerCorrectness {
  import opened QueryTerms
  import opened Annotation
  import opened AnnotationState
  import opened OperatorTree
  import opened Semantics
  import opened TypedTrees
  import opened CompilerTypes

  // ------------------------------------------------------ trees are well typed

  /** The node does what its type says, and is evaluable exactly when it has a value. */
  ghost predicate FitsType(cx: Context, node: OpNode, t: Type, d: Scope, n: nat) {
    && node.typeExpr == t
    && (IsValueType(cx, t) ==> node.evaluable && !node.isFun && Typed(cx, node, t, d, n))
    && (Callable(cx, t) ==> TypedFun(cx, node, d, n))
    && (!IsValueType(cx, t) ==> !node.evaluable)
  }

  /** The state after annotation of the query has everything the subexpression put there. */
  ghost predicate Covers(st: State, vals: seq<ValueEntry>, n: nat) {
    st.isDefined && st.values <= vals && st.functionno <= n
  }

  lemma MapTypeParts(ts: seq<Type>, r: Type)
    ensures IsMap(MapType(ts, r)) && MapParams(MapType(ts, r)) == ts && MapResult(MapType(ts, r)) == r
  {}

  /** Typing looks at the kind of a node only. */
  lemma TypedKind(cx: Context, node: OpNode, node': OpNode, t: Type, d: Scope, n: nat)
    requires node.kind == node'.kind && Typed(cx, node, t, d, n)
    ensures Typed(cx, node', t, d, n)
  {
    assert node.IsAbstraction() == node'.IsAbstraction();
  }

  lemma {:induction false} TreesFit(cx: Context, e: Expr, st: State, fa: seq<TypedArg>, g: TypeEnv, d: Scope,
                                    seen: set<string>, vals: seq<ValueEntry>, n: nat)
    requires Start(cx, e, st, g, d, seen)
    requires Accepted(cx, Annotate(cx, e, st, fa).0) && Covers(Annotate(cx, e, st, fa).1, vals, n)
    ensures var a := Annotate(cx, e, st, fa).0.v; FitsType(cx, Subtree(cx, a, vals), a.t, d, n)
    decreases e, 1
  {
    match e
    case Const(_) => LeafFits(cx, e, st, fa, g, d, seen, vals, n);
    case Sym(_) => LeafFits(cx, e, st, fa, g, d, seen, vals, n);
    case FunObj(_, def) =>
      var none: TypeEnv := map[];
      assert none.Keys == {};
      TreesFit(cx, def, st.AddValue(ValueEntry(0, false, true)).(tables := EMPTYTABLES), [], none, d, {}, vals, n);
    case Fun(ps, body) => FunFits(cx, ps, body, st, fa, g, d, seen, vals, n);
    case List(es) =>
      if es != [] {
        ListElemsFit(cx, es, st, fa, g, d, seen, vals, n);
        ListFits(cx, es, st, fa, g, d, seen, vals, n);
      }
    case Counter(_, _) => WrappedFits(cx, e, st, fa, g, d, seen, vals, n);
    case Memory(_, _) => WrappedFits(cx, e, st, fa, g, d, seen, vals, n);
  }

  lemma {:induction false} WrappedFits(cx: Context, e: Expr, st: State, fa: seq<TypedArg>, g: TypeEnv, d: Scope,
                                       seen: set<string>, vals: seq<ValueEntry>, n: nat)
    requires e.Counter? || e.Memory?
    requires Start(cx, e, st, g, d, seen)
    requires Accepted(cx, Annotate(cx, e, st, fa).0) && Covers(Annotate(cx, e, st, fa).1, vals, n)
    ensures var a := Annotate(cx, e, st, fa).0.v; FitsType(cx, Subtree(cx, a, vals), a.t, d, n)
    decreases e, 0
  {
    var a := Annotate(cx, e, st, fa).0.v;
    var value := if e.Counter? then e.no else e.size;
    TreesFit(cx, e.e, st.AddValue(ValueEntry(value, true, false)), fa, g, d, seen, vals, n);
    WrapperFits(cx, Subtree(cx, a.a.e, vals), Subtree(cx, a, vals), a.t, d, n);
  }

  lemma LeafFits(cx: Context, e: Expr, st: State, fa: seq<TypedArg>, g: TypeEnv, d: Scope, seen: set<string>,
                 vals: seq<ValueEntry>, n: nat)
    requires e.Const? || e.Sym?
    requires Start(cx, e, st, g, d, seen)
    requires Accepted(cx, Annotate(cx, e, st, fa).0) && Covers(Annotate(cx, e, st, fa).1, vals, n)
    ensures var a := Annotate(cx, e, st, fa).0.v; FitsType(cx, Subtree(cx, a, vals), a.t, d, n)
  {
    var st' := Annotate(cx, e, st, fa).1;
    if e.Const? || e.name in cx.cat.objects {
      assert vals[|st.values|] == st'.values[|st.values|];
    }
  }

  lemma {:induction false} FunFits(cx: Context, ps: seq<Param>, body: Expr, st: State, fa: seq<TypedArg>, g: TypeEnv, d: Scope,
                                   seen: set<string>, vals: seq<ValueEntry>, n: nat)
    requires Start(cx, Fun(ps, body), st, g, d, seen)
    requires Accepted(cx, Annotate(cx, Fun(ps, body), st, fa).0) && Covers(Annotate(cx, Fun(ps, body), st, fa).1, vals, n)
    ensures var a := Annotate(cx, Fun(ps, body), st, fa).0.v; FitsType(cx, Subtree(cx, a, vals), a.t, d, n)
    decreases body, 2
  {
    var f, ts := st.functionno + 1, ParamTypes(cx, ps, fa);
    FunAccepted(cx, ps, body, st, fa, g, d, seen);
    var a := Annotate(cx, Fun(ps, body), st, fa).0.v;
    TreesFit(cx, body, BodyState(cx, ps, st, fa), fa, Bind(g, ps, ts), d[f := ts], seen + ParamNames(ps), vals, n);
    AnnotateGrows(cx, body, BodyState(cx, ps, st, fa), fa);
    AbstractionFits(cx, a.a.body, f, ts, d, vals, n);
  }

  lemma {:induction false} ListElemsFit(cx: Context, es: seq<Expr>, st: State, fa: seq<TypedArg>, g: TypeEnv, d: Scope,
                                        seen: set<string>, vals: seq<ValueEntry>, n: nat)
    requires es != [] && Start(cx, List(es), st, g, d, seen)
    requires Accepted(cx, Annotate(cx, List(es), st, fa).0) && Covers(Annotate(cx, List(es), st, fa).1, vals, n)
    ensures var r := AnnotateElems(cx, es, st, fa, false, []).0; r.Done? && ElemsFitted(cx, r.v, d, vals, n)
    decreases es, 1
  {
    ListAccepted(cx, es, st, fa, g, d, seen);
    var (rs, st1) := AnnotateElems(cx, es, st, fa, false, []);
    CombineGrows(cx, es, rs.v, st1);
    ElemsFit(cx, es, st, fa, false, [], g, d, seen, vals, n);
  }

  lemma WrapperFits(cx: Context, node: OpNode, node': OpNode, t: Type, d: Scope, n: nat)
    requires FitsType(cx, node, t, d, n)
    requires node' == node.(counterNo := node'.counterNo, memorySize := node'.memorySize)
    ensures FitsType(cx, node', t, d, n)
  {
    if IsValueType(cx, t) { TypedKind(cx, node, node', t, d, n); }
    if Callable(cx, t) { TypedKind(cx, node, node', MapResult(t), d[node.funNo := MapParams(t)], n); }
  }

  lemma AbstractionFits(cx: Context, body: TAnn, f: nat, ts: seq<Type>, d: Scope, vals: seq<ValueEntry>, n: nat)
    requires 1 <= f <= n && f !in d
    requires FitsType(cx, Subtree(cx, body, vals), body.t, d[f := ts], n)
    ensures var a := TAnn(AAbstraction(body, f), MapType(ts, body.t)); FitsType(cx, Subtree(cx, a, vals), a.t, d, n)
  {
    var a := TAnn(AAbstraction(body, f), MapType(ts, body.t));
    MapTypeParts(ts, body.t);
    if Callable(cx, a.t) {
      TypedKind(cx, Subtree(cx, body, vals), Subtree(cx, a, vals), body.t, d[f := ts], n);
    }
  }

  lemma {:induction false} ConstTrees(cx: Context, cs: seq<Constant>, st: State, vals: seq<ValueEntry>)
    requires ConstsOk(cx, cs) && AnnotateConsts(cs, st).1.values <= vals
    ensures var anns := AnnotateConsts(cs, st).0;
            forall i | 0 <= i < |cs| ::
              anns[i].t == cs[i].ty && Subtree(cx, anns[i], vals) == LeafNode(KObject(cs[i].w), cs[i].ty, true)
    decreases |cs|
  {
    if cs != [] {
      assert ConstsOk(cx, cs[1..]) by { forall i | 0 <= i < |cs| - 1 ensures cs[1..][i] == cs[i + 1] {} }
      var (a, st1) := AnnotateConst(cs[0], st);
      AnnotateConstsState(cs[1..], st1);
      assert vals[|st.values|] == st1.values[|st.values|];
      ConstTrees(cx, cs[1..], st1, vals);
      var anns := AnnotateConsts(cs, st).0;
      forall i | 0 <= i < |cs|
        ensures anns[i].t == cs[i].ty && Subtree(cx, anns[i], vals) == LeafNode(KObject(cs[i].w), cs[i].ty, true)
      {
        if i > 0 { assert anns[i] == AnnotateConsts(cs[1..], st1).0[i - 1] && cs[i] == cs[1..][i - 1]; }
      }
    }
  }

  lemma {:induction false} ElemsFit(cx: Context, es: seq<Expr>, st: State, fa: seq<TypedArg>, isOp: bool, before: seq<TypedArg>,
                                    g: TypeEnv, d: Scope, seen: set<string>, vals: seq<ValueEntry>, n: nat)
    requires StartElems(cx, es, st, g, d, seen)
    requires var (r, st') := AnnotateElems(cx, es, st, fa, isOp, before);
             r.Done? && ElemsAccepted(cx, r.v, before == []) && Covers(st', vals, n)
    ensures var anns := AnnotateElems(cx, es, st, fa, isOp, before).0.v;
            forall i | 0 <= i < |es| && Accepted(cx, Done(anns[i])) :: FitsType(cx, Subtree(cx, anns[i], vals), anns[i].t, d, n)
    decreases es, 0
  {
    if es != [] {
      var fa1 := if isOp then before else fa;
      var a, st1, rest, isOp', before' := ElemsCons(cx, es, st, fa, isOp, before);
      assert StartElems(cx, es[1..], st1, g, d, seen + Binders(es[0])) by { StartRest(cx, es, st, fa1, g, d, seen); }
      assert Start(cx, es[0], st, g, d, seen) by { StartRest(cx, es, st, fa1, g, d, seen); }
      ElemsOfRest(cx, a, rest, before == []);
      AnnotateElemsGrows(cx, es[1..], st1, fa, isOp', before');
      if Accepted(cx, Done(a)) {
        TreesFit(cx, es[0], st, fa1, g, d, seen, vals, n);
      }
      ElemsFit(cx, es[1..], st1, fa, isOp', before', g, d, seen + Binders(es[0]), vals, n);
    }
  }

  /** A son as its operator gets it. */
  lemma SonFits(cx: Context, node: OpNode, t: Type, requests: bool, d: Scope, n: nat)
    requires FitsType(cx, node, t, d, n)
    ensures TypedSon(cx, if requests then node.(evaluable := false) else node, requests, d, n)
  {
    var son := if requests then node.(evaluable := false) else node;
    if IsValueType(cx, t) { TypedKind(cx, node, son, t, d, n); }
    else if Callable(cx, t) { TypedKind(cx, node, son, MapResult(t), d[node.funNo := MapParams(t)], n); }
  }

  ghost predicate ElemsFitted(cx: Context, anns: seq<TAnn>, d: Scope, vals: seq<ValueEntry>, n: nat) {
    forall i | 0 <= i < |anns| && Accepted(cx, Done(anns[i])) :: FitsType(cx, Subtree(cx, anns[i], vals), anns[i].t, d, n)
  }

  lemma {:induction false} ListFits(cx: Context, es: seq<Expr>, st: State, fa: seq<TypedArg>, g: TypeEnv, d: Scope,
                                    seen: set<string>, vals: seq<ValueEntry>, n: nat)
    requires es != [] && Start(cx, List(es), st, g, d, seen)
    requires Accepted(cx, Annotate(cx, List(es), st, fa).0) && Covers(Annotate(cx, List(es), st, fa).1, vals, n)
    requires var r := AnnotateElems(cx, es, st, fa, false, []).0;
             r.Done? && ElemsFitted(cx, r.v, d, vals, n)
    ensures var a := Annotate(cx, List(es), st, fa).0.v; FitsType(cx, Subtree(cx, a, vals), a.t, d, n)
  {
    var (r, st1) := AnnotateElems(cx, es, st, fa, false, []);
    ListAccepted(cx, es, st, fa, g, d, seen);
    if r.v[0].a.AOperator? {
      ApplicationFits(cx, es, r.v, st1, d, vals, n);
    } else if r.v[0].a.AAbstraction? {
      CallFits(cx, es, r.v, st1, d, vals, n);
    } else {
      HeadProper(cx, es, st, fa, g, d, seen);
      ArgListFits(cx, es, r.v, st1, d, vals, n);
    }
  }

  lemma {:induction false} CallFits(cx: Context, es: seq<Expr>, anns: seq<TAnn>, st: State, d: Scope, vals: seq<ValueEntry>, n: nat)
    requires |anns| == |es| > 0 && anns[0].a.AAbstraction?
    requires Accepted(cx, Combine(cx, es, anns, st).0)
    requires ElemsFitted(cx, anns, d, vals, n) && ElemsAccepted(cx, anns, true)
    ensures var a := Combine(cx, es, anns, st).0.v; FitsType(cx, Subtree(cx, a, vals), a.t, d, n)
  {
    var a := Combine(cx, es, anns, st).0.v;
    var sons := Subtrees(cx, anns[1..], vals, false);
    var node := Subtree(cx, a, vals);
    assert Accepted(cx, Done(anns[0]));
    assert FitsType(cx, Subtree(cx, anns[0], vals), anns[0].t, d, n);
    forall i | 1 <= i < |node.kind.sons|
      ensures node.kind.sons[i].evaluable && Typed(cx, node.kind.sons[i], MapParams(anns[0].t)[i - 1], d, n)
    {
      SecondSonFits(cx, es, anns, d, vals, n, i);
    }
  }

  lemma SecondSonFits(cx: Context, es: seq<Expr>, anns: seq<TAnn>, d: Scope, vals: seq<ValueEntry>, n: nat, i: nat)
    requires 1 <= i < |anns| == |es| && ElemsFitted(cx, anns, d, vals, n) && ElemsAccepted(cx, anns, true)
    requires Callable(cx, anns[0].t) && MapParams(anns[0].t) == Types(Pairs(anns[1..], es[1..]))
    ensures var son := Subtrees(cx, anns[1..], vals, false)[i - 1];
            son.evaluable && Typed(cx, son, MapParams(anns[0].t)[i - 1], d, n)
  {
    assert anns[1..][i - 1] == anns[i];
    assert Accepted(cx, Done(anns[i]));
    assert Types(Pairs(anns[1..], es[1..]))[i - 1] == anns[i].t;
  }

  lemma ArgListFits(cx: Context, es: seq<Expr>, anns: seq<TAnn>, st: State, d: Scope, vals: seq<ValueEntry>, n: nat)
    requires CatalogOk(cx) && |anns| == |es| > 0 && Proper(cx, anns[0].t)
    requires !anns[0].a.AOperator? && !anns[0].a.AAbstraction?
    requires Accepted(cx, Combine(cx, es, anns, st).0)
    ensures var a := Combine(cx, es, anns, st).0.v; FitsType(cx, Subtree(cx, a, vals), a.t, d, n)
  {
    var a := Combine(cx, es, anns, st).0.v;
    assert a.t.elems[0] == anns[0].t;
  }

  lemma HeadProper(cx: Context, es: seq<Expr>, st: State, fa: seq<TypedArg>, g: TypeEnv, d: Scope, seen: set<string>)
    requires StartElems(cx, es, st, g, d, seen) && es != []
    requires Accepted(cx, Annotate(cx, es[0], st, fa).0)
    ensures Proper(cx, Annotate(cx, es[0], st, fa).0.v.t)
  {
    StartRest(cx, es, st, fa, g, d, seen);
    TypesAgree(cx, es[0], st, fa, g, d, seen);
  }

  /** The sons of an operator application. */
  function ApplicationSons(cx: Context, es: seq<Expr>, anns: seq<TAnn>, st: State, vals: seq<ValueEntry>): seq<OpNode>
    requires |anns| == |es| > 0 && anns[0].a.AOperator? && anns[0].a.cands != []
  {
    var r := Resolve(cx, anns[0].a.cands, Pairs(anns[1..], es[1..]), true);
    Subtrees(cx, anns[1..] + AnnotateConsts(Extra(r.result), st).0, vals, cx.alg.requestsArgs(r.key))
  }

  ghost predicate AllFit(cx: Context, args: seq<TAnn>, d: Scope, vals: seq<ValueEntry>, n: nat) {
    forall i | 0 <= i < |args| :: FitsType(cx, Subtree(cx, args[i], vals), args[i].t, d, n)
  }

  lemma SonsTyped(cx: Context, args: seq<TAnn>, vals: seq<ValueEntry>, requests: bool, d: Scope, n: nat)
    requires AllFit(cx, args, d, vals, n)
    ensures var sons := Subtrees(cx, args, vals, requests);
            && SonTypes(sons) == AnnTypes(args)
            && forall i | 0 <= i < |args| :: TypedSon(cx, sons[i], requests, d, n)
  {
    forall i | 0 <= i < |args|
      ensures var son := Subtrees(cx, args, vals, requests)[i];
              son.typeExpr == args[i].t && TypedSon(cx, son, requests, d, n)
    {
      SonFits(cx, Subtree(cx, args[i], vals), args[i].t, requests, d, n);
    }
  }

  lemma ArgsFit(cx: Context, es: seq<Expr>, anns: seq<TAnn>, d: Scope, vals: seq<ValueEntry>, n: nat)
    requires |anns| == |es| > 0
    requires ElemsFitted(cx, anns, d, vals, n) && ElemsAccepted(cx, anns, true)
    ensures AllFit(cx, anns[1..], d, vals, n) && AnnTypes(anns[1..]) == Types(Pairs(anns[1..], es[1..]))
  {
    forall i | 0 <= i < |anns| - 1
      ensures FitsType(cx, Subtree(cx, anns[1..][i], vals), anns[1..][i].t, d, n)
    {
      assert Accepted(cx, Done(anns[i + 1]));
    }
  }

  lemma ConstsFit(cx: Context, cs: seq<Constant>, st: State, d: Scope, vals: seq<ValueEntry>, n: nat)
    requires ConstsOk(cx, cs) && AnnotateConsts(cs, st).1.values <= vals
    ensures AllFit(cx, AnnotateConsts(cs, st).0, d, vals, n) && AnnTypes(AnnotateConsts(cs, st).0) == ConstTypes(cs)
  {
    ConstTrees(cx, cs, st, vals);
  }

  lemma AllFitConcat(cx: Context, a: seq<TAnn>, b: seq<TAnn>, d: Scope, vals: seq<ValueEntry>, n: nat)
    requires AllFit(cx, a, d, vals, n) && AllFit(cx, b, d, vals, n)
    ensures AllFit(cx, a + b, d, vals, n) && AnnTypes(a + b) == AnnTypes(a) + AnnTypes(b)
  {}

  /** The types of the arguments, appended constants included. */
  lemma ApplicationTypes(anns: seq<TAnn>, args: seq<TypedArg>, extra: seq<Constant>, st: State, cx: Context)
    requires ConstsOk(cx, extra) && |anns| == |args| && forall i | 0 <= i < |args| :: args[i].t == anns[i].t
    ensures AnnTypes(anns + AnnotateConsts(extra, st).0) == Types(args) + ConstTypes(extra)
  {
    ConstsFit(cx, extra, st, map[], AnnotateConsts(extra, st).1.values, 0);
  }

  /** What resolving an accepted operator application gives. */
  lemma ApplicationResolved(cx: Context, es: seq<Expr>, anns: seq<TAnn>, st: State)
    requires ContextOk(cx) && |anns| == |es| > 0 && anns[0].a.AOperator?
    requires exists x :: x in cx.cat.operators && cx.cat.operators[x] == anns[0].a.cands
    requires Accepted(cx, Combine(cx, es, anns, st).0)
    ensures anns[0].a.cands != []
    ensures var args := Pairs(anns[1..], es[1..]);
            var r := Resolve(cx, anns[0].a.cands, args, true);
            && !r.result.Rejected? && AcceptanceOk(cx, r.key, args, r.result)
            && (IsValueType(cx, r.result.result) ==>
                  SignatureOk(cx, r.key, cx.alg.select(r.key, Types(args)), Types(args) + ConstTypes(Extra(r.result)), r.result.result))
            && r.key.alg > 0 && OpKey(r.key.alg, r.opFunId % OPBASE) == r.key
            && r.opFunId / OPBASE == cx.alg.select(r.key, Types(args)) >= 0
  {
    var args := Pairs(anns[1..], es[1..]);
    var r := Resolve(cx, anns[0].a.cands, args, true);
    ResolveAccepted(cx, anns[0].a.cands, args);
    assert AcceptanceOk(cx, r.key, args, r.result);
    Unpack(cx.alg.select(r.key, Types(args)), r.key.op);
    ApplicationTypes(anns[1..], args, Extra(r.result), st, cx);
  }

  lemma ApplicationArgsFit(cx: Context, es: seq<Expr>, anns: seq<TAnn>, st: State, d: Scope, vals: seq<ValueEntry>, n: nat)
    requires |anns| == |es| > 0 && anns[0].a.AOperator? && anns[0].a.cands != []
    requires var r := Resolve(cx, anns[0].a.cands, Pairs(anns[1..], es[1..]), true);
             ConstsOk(cx, Extra(r.result)) && AnnotateConsts(Extra(r.result), st).1.values <= vals
    requires ElemsFitted(cx, anns, d, vals, n) && ElemsAccepted(cx, anns, true)
    ensures var r := Resolve(cx, anns[0].a.cands, Pairs(anns[1..], es[1..]), true);
            var sons := ApplicationSons(cx, es, anns, st, vals);
            && SonTypes(sons) == Types(Pairs(anns[1..], es[1..])) + ConstTypes(Extra(r.result))
            && forall i | 0 <= i < |sons| :: TypedSon(cx, sons[i], cx.alg.requestsArgs(r.key), d, n)
  {
    var r := Resolve(cx, anns[0].a.cands, Pairs(anns[1..], es[1..]), true);
    var consts := AnnotateConsts(Extra(r.result), st).0;
    ArgsFit(cx, es, anns, d, vals, n);
    ConstsFit(cx, Extra(r.result), st, d, vals, n);
    AllFitConcat(cx, anns[1..], consts, d, vals, n);
    SonsTyped(cx, anns[1..] + consts, vals, cx.alg.requestsArgs(r.key), d, n);
  }

  lemma {:induction false} ApplicationFits(cx: Context, es: seq<Expr>, anns: seq<TAnn>, st: State, d: Scope,
                                           vals: seq<ValueEntry>, n: nat)
    requires ContextOk(cx) && |anns| == |es| > 0 && anns[0].a.AOperator?
    requires exists x :: x in cx.cat.operators && cx.cat.operators[x] == anns[0].a.cands
    requires Accepted(cx, Combine(cx, es, anns, st).0) && Covers(Combine(cx, es, anns, st).1, vals, n)
    requires ElemsFitted(cx, anns, d, vals, n) && ElemsAccepted(cx, anns, true)
    ensures var a := Combine(cx, es, anns, st).0.v; FitsType(cx, Subtree(cx, a, vals), a.t, d, n)
  {
    ApplicationResolved(cx, es, anns, st);
    ApplicationArgsFit(cx, es, anns, st, d, vals, n);
  }
}
