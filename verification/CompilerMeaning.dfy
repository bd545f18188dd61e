/**
 The second half of compiler correctness: over argument vectors that agree with the lexical
 environment, the operator tree denotes the value the direct semantics gives the query.
 */
module CompilerMeaning {
  import opened QueryTerms
  import opened Annotation
  import opened AnnotationState
  import opened OperatorTree
  import opened Semantics
  import opened TypedTrees
  import opened CompilerTypes
  import opened CompilerCorrectness

  /** The node denotes what `e` means; a function does so for all fitting arguments. */
  ghost predicate Means(cx: Context, e: Expr, node: OpNode, t: Type, g: TypeEnv, env: ValueEnv,
                        fa: seq<TypedArg>, v: Vectors)
  {
    && (IsValueType(cx, t) ==>
          && Denote(cx, node, v) == ValueOf(cx, e, g, env, fa)
          && forall ws :: ValueOfCall(cx, e, ws, g, env, fa) == ValueOf(cx, e, g, env, fa))
    && (Callable(cx, t) ==>
          forall ws | HaveTypes(cx, ws, MapParams(t)) ::
            DenoteCall(cx, node, ws, v) == ValueOfCall(cx, e, ws, g, env, fa))
  }

  /** Everything the meaning of a subexpression depends on. */
  ghost predicate Running(cx: Context, st: State, st': State, g: TypeEnv, env: ValueEnv, d: Scope,
                          vals: seq<ValueEntry>, n: nat, v: Vectors)
  {
    Covers(st', vals, n) && VectorsOk(cx, v, d, n) && Agree(st.tables, g, env, v)
  }

  /** Denotation looks at the kind of a node only. */
  lemma DenoteKind(cx: Context, node: OpNode, node': OpNode, v: Vectors)
    requires node.kind == node'.kind
    ensures Denote(cx, node, v) == Denote(cx, node', v)
  {
    if node.kind.KOperator? && !node.IsAbstraction() {
      ProgramKind(cx, OperatorProgram(cx, node, v), node, node', v);
      UnfoldOperator(cx, node, v);
      UnfoldOperator(cx, node', v);
    }
  }

  lemma {:induction false} ProgramKind(cx: Context, p: Program, node: OpNode, node': OpNode, v: Vectors)
    requires node.kind == node'.kind && node.kind.KOperator? && Terminates(p)
    ensures DenoteProgram(cx, p, node, v) == DenoteProgram(cx, p, node', v)
    decreases p.Rank()
  {
    if p.Ask? {
      var answer := if p.son < |node.kind.sons| then DenoteCall(cx, node.kind.sons[p.son], p.args, v) else 0;
      ProgramKind(cx, p.cont(answer), node, node', v);
    }
  }

  lemma {:induction false} Meaning(cx: Context, e: Expr, st: State, fa: seq<TypedArg>, g: TypeEnv, env: ValueEnv, d: Scope,
                                   seen: set<string>, vals: seq<ValueEntry>, n: nat, v: Vectors)
    requires Start(cx, e, st, g, d, seen) && Accepted(cx, Annotate(cx, e, st, fa).0)
    requires Running(cx, st, Annotate(cx, e, st, fa).1, g, env, d, vals, n, v)
    ensures var a := Annotate(cx, e, st, fa).0.v; Means(cx, e, Subtree(cx, a, vals), a.t, g, env, fa, v)
    decreases e, 2
  {
    match e
    case Const(_) => LeafMeaning(cx, e, st, fa, g, env, d, seen, vals, n, v);
    case Sym(_) => LeafMeaning(cx, e, st, fa, g, env, d, seen, vals, n, v);
    case FunObj(_, _) => FunObjMeaning(cx, e, st, fa, g, env, d, seen, vals, n, v);
    case Fun(ps, body) => FunMeaning(cx, ps, body, st, fa, g, env, d, seen, vals, n, v);
    case List(es) =>
      if es != [] {
        ListElemsMeaning(cx, es, st, fa, g, env, d, seen, vals, n, v);
        ListMeaning(cx, es, st, fa, g, env, d, seen, vals, n, v);
      }
    case Counter(_, _) => WrappedMeaning(cx, e, st, fa, g, env, d, seen, vals, n, v);
    case Memory(_, _) => WrappedMeaning(cx, e, st, fa, g, env, d, seen, vals, n, v);
  }

  /** Counters and memory sizes do not change what an expression means. */
  lemma {:induction false} WrappedMeaning(cx: Context, e: Expr, st: State, fa: seq<TypedArg>, g: TypeEnv, env: ValueEnv, d: Scope,
                                          seen: set<string>, vals: seq<ValueEntry>, n: nat, v: Vectors)
    requires e.Counter? || e.Memory?
    requires Start(cx, e, st, g, d, seen) && Accepted(cx, Annotate(cx, e, st, fa).0)
    requires Running(cx, st, Annotate(cx, e, st, fa).1, g, env, d, vals, n, v)
    ensures var a := Annotate(cx, e, st, fa).0.v; Means(cx, e, Subtree(cx, a, vals), a.t, g, env, fa, v)
    decreases e, 1
  {
    var a := Annotate(cx, e, st, fa).0.v;
    var value := if e.Counter? then e.no else e.size;
    Meaning(cx, e.e, st.AddValue(ValueEntry(value, true, false)), fa, g, env, d, seen, vals, n, v);
    WrapperMeaning(cx, e.e, e, Subtree(cx, a.a.e, vals), Subtree(cx, a, vals), a.t, g, env, fa, v);
  }

  lemma LeafMeaning(cx: Context, e: Expr, st: State, fa: seq<TypedArg>, g: TypeEnv, env: ValueEnv, d: Scope,
                    seen: set<string>, vals: seq<ValueEntry>, n: nat, v: Vectors)
    requires e.Const? || e.Sym?
    requires Start(cx, e, st, g, d, seen) && Accepted(cx, Annotate(cx, e, st, fa).0)
    requires Running(cx, st, Annotate(cx, e, st, fa).1, g, env, d, vals, n, v)
    ensures var a := Annotate(cx, e, st, fa).0.v; Means(cx, e, Subtree(cx, a, vals), a.t, g, env, fa, v)
  {
    var st' := Annotate(cx, e, st, fa).1;
    if e.Const? || e.name in cx.cat.objects {
      assert vals[|st.values|] == st'.values[|st.values|];
    }
  }

  /** What an abstraction means is settled call by call. */
  lemma {:induction false} FunMeaning(cx: Context, ps: seq<Param>, body: Expr, st: State, fa: seq<TypedArg>, g: TypeEnv, env: ValueEnv,
                                      d: Scope, seen: set<string>, vals: seq<ValueEntry>, n: nat, v: Vectors)
    requires Start(cx, Fun(ps, body), st, g, d, seen) && Accepted(cx, Annotate(cx, Fun(ps, body), st, fa).0)
    requires Running(cx, st, Annotate(cx, Fun(ps, body), st, fa).1, g, env, d, vals, n, v)
    ensures var a := Annotate(cx, Fun(ps, body), st, fa).0.v;
            Means(cx, Fun(ps, body), Subtree(cx, a, vals), a.t, g, env, fa, v)
    decreases Fun(ps, body), 1
  {
    var a := Annotate(cx, Fun(ps, body), st, fa).0.v;
    FunAccepted(cx, ps, body, st, fa, g, d, seen);
    MapTypeParts(ParamTypes(cx, ps, fa), Annotate(cx, body, BodyState(cx, ps, st, fa), fa).0.v.t);
    forall ws | Callable(cx, a.t) && HaveTypes(cx, ws, MapParams(a.t))
      ensures DenoteCall(cx, Subtree(cx, a, vals), ws, v) == ValueOfCall(cx, Fun(ps, body), ws, g, env, fa)
    {
      CallMeaning(cx, ps, body, ws, st, fa, g, env, d, seen, vals, n, v);
    }
  }

  lemma {:induction false} ListElemsMeaning(cx: Context, es: seq<Expr>, st: State, fa: seq<TypedArg>, g: TypeEnv, env: ValueEnv, d: Scope,
                                            seen: set<string>, vals: seq<ValueEntry>, n: nat, v: Vectors)
    requires es != [] && Start(cx, List(es), st, g, d, seen) && Accepted(cx, Annotate(cx, List(es), st, fa).0)
    requires Running(cx, st, Annotate(cx, List(es), st, fa).1, g, env, d, vals, n, v)
    ensures var r := AnnotateElems(cx, es, st, fa, false, []).0;
            r.Done? && ElemsMean(cx, es, r.v, fa, false, [], g, env, vals, v)
    decreases es, 1
  {
    var (rs, st1) := AnnotateElems(cx, es, st, fa, false, []);
    ListAccepted(cx, es, st, fa, g, d, seen);
    CombineGrows(cx, es, rs.v, st1);
    ElemsMeaning(cx, es, st, fa, false, [], g, env, d, seen, vals, n, v);
  }

  lemma WrapperMeaning(cx: Context, e1: Expr, e: Expr, node: OpNode, node': OpNode, t: Type, g: TypeEnv, env: ValueEnv,
                       fa: seq<TypedArg>, v: Vectors)
    requires (e.Counter? || e.Memory?) && e1 == e.e
    requires Means(cx, e1, node, t, g, env, fa, v)
    requires node' == node.(counterNo := node'.counterNo, memorySize := node'.memorySize)
    ensures Means(cx, e, node', t, g, env, fa, v)
  {
    DenoteKind(cx, node, node', v);
    forall ws ensures ValueOfCall(cx, e, ws, g, env, fa) == ValueOfCall(cx, e1, ws, g, env, fa) {}
    forall ws ensures DenoteCall(cx, node', ws, v) == DenoteCall(cx, node, ws, v) {
      DenoteKind(cx, node, node', Load(v, node.funNo, ws));
    }
  }

  /** A stored function object means its definition, read with empty tables and environments. */
  lemma {:induction false} FunObjMeaning(cx: Context, e: Expr, st: State, fa: seq<TypedArg>, g: TypeEnv, env: ValueEnv, d: Scope,
                                         seen: set<string>, vals: seq<ValueEntry>, n: nat, v: Vectors)
    requires e.FunObj? && Start(cx, e, st, g, d, seen) && Accepted(cx, Annotate(cx, e, st, fa).0)
    requires Running(cx, st, Annotate(cx, e, st, fa).1, g, env, d, vals, n, v)
    ensures var a := Annotate(cx, e, st, fa).0.v; Means(cx, e, Subtree(cx, a, vals), a.t, g, env, fa, v)
    decreases e, 1
  {
    var none: TypeEnv := map[];
    var nothing: ValueEnv := map[];
    assert none.Keys == {} && nothing.Keys == {};
    var st0 := st.AddValue(ValueEntry(0, false, true)).(tables := EMPTYTABLES);
    Meaning(cx, e.def, st0, [], none, nothing, d, {}, vals, n, v);
    var t := Annotate(cx, e, st, fa).0.v.t;
    TypesAgree(cx, e.def, st0, [], none, d, {});
    assert IsMap(t) by {
      MapTypeParts(ParamTypes(cx, e.def.params, []),
                   TypeOf(cx, e.def.body, Bind(none, e.def.params, ParamTypes(cx, e.def.params, [])), []));
    }
  }

  /** Loading a function that is not yet in scope leaves the values of all names. */
  lemma LoadAgrees(tb: Tables, g: TypeEnv, env: ValueEnv, d: Scope, v: Vectors, f: nat, ws: seq<Word>)
    requires 1 <= f <= |v| && |ws| <= |v[f - 1]| && Match(tb, g, d, f - 1) && Agree(tb, g, env, v)
    ensures Agree(tb, g, env, Load(v, f, ws))
  {
    LoadSlots(v, f, ws);
    forall x | x in g ensures tb.GetVariable(x).funindex != f {}
  }

  /** One call: loading the vector of the function is binding its parameters. */
  lemma {:induction false} CallMeaning(cx: Context, ps: seq<Param>, body: Expr, ws: seq<Word>, st: State, fa: seq<TypedArg>,
                                       g: TypeEnv, env: ValueEnv, d: Scope, seen: set<string>, vals: seq<ValueEntry>, n: nat, v: Vectors)
    requires Start(cx, Fun(ps, body), st, g, d, seen) && Accepted(cx, Annotate(cx, Fun(ps, body), st, fa).0)
    requires Running(cx, st, Annotate(cx, Fun(ps, body), st, fa).1, g, env, d, vals, n, v)
    requires var t := Annotate(cx, Fun(ps, body), st, fa).0.v.t; Callable(cx, t) && HaveTypes(cx, ws, MapParams(t))
    ensures DenoteCall(cx, Subtree(cx, Annotate(cx, Fun(ps, body), st, fa).0.v, vals), ws, v)
         == ValueOfCall(cx, Fun(ps, body), ws, g, env, fa)
    decreases body, 3
  {
    var a := Annotate(cx, Fun(ps, body), st, fa).0.v;
    var f, ts := st.functionno + 1, ParamTypes(cx, ps, fa);
    FunAccepted(cx, ps, body, st, fa, g, d, seen);
    MapTypeParts(ts, a.a.body.t);
    AnnotateGrows(cx, body, BodyState(cx, ps, st, fa), fa);
    var v1 := Load(v, f, ws);
    LoadOk(cx, v, f, ws, ts, d, n);
    LoadAgrees(st.tables, g, env, d, v, f, ws);
    EnterAgrees(cx, ps, fa, st.tables, 1, f, g, env, v1, ws);
    Meaning(cx, body, BodyState(cx, ps, st, fa), fa, Bind(g, ps, ts), Bind(env, ps, ws), d[f := ts],
            seen + ParamNames(ps), vals, n, v1);
    DenoteKind(cx, Subtree(cx, a.a.body, vals), Subtree(cx, a, vals), v1);
  }

  // ---------------------------------------------------------------------- lists

  /** What element `j` of the rest `es` of a list is told about the elements before it. */
  function ContextAt(cx: Context, es: seq<Expr>, g: TypeEnv, fa: seq<TypedArg>, isOp: bool, before: seq<TypedArg>, j: nat): seq<TypedArg>
    requires j < |es|
  {
    if before == [] then
      if isOp then [] else Semantics.ElemContext(cx, es, g, fa, j)
    else if isOp then before + TypedElems(cx, es, g, fa, isOp, before)[..j]
    else fa
  }

  lemma ContextOfRest(cx: Context, es: seq<Expr>, g: TypeEnv, fa: seq<TypedArg>, isOp: bool, before: seq<TypedArg>, j: nat)
    requires es != [] && j < |es| - 1 && (before == [] ==> !isOp)
    ensures var p := TypedArg(TypeOf(cx, es[0], g, if isOp then before else fa), es[0]);
            var isOp' := if before == [] then MeansOperator(cx, es[0], g) else isOp;
            ContextAt(cx, es[1..], g, fa, isOp', before + [p], j) == ContextAt(cx, es, g, fa, isOp, before, j + 1)
  {
    var p := TypedArg(TypeOf(cx, es[0], g, if isOp then before else fa), es[0]);
    var isOp' := if before == [] then MeansOperator(cx, es[0], g) else isOp;
    var rest := TypedElems(cx, es[1..], g, fa, isOp', before + [p]);
    var all := TypedElems(cx, es, g, fa, isOp, before);
    assert all == [p] + rest;
    TakeCons(before, p, rest, j);
    if isOp' {
      assert ContextAt(cx, es[1..], g, fa, isOp', before + [p], j) == (before + [p]) + rest[..j];
      if before == [] {
        assert ContextAt(cx, es, g, fa, isOp, before, j + 1) == all[..j + 1];
      }
    }
  }

  lemma TakeCons(before: seq<TypedArg>, p: TypedArg, rest: seq<TypedArg>, j: nat)
    requires j <= |rest|
    ensures (before + [p]) + rest[..j] == before + ([p] + rest)[..j + 1]
    ensures before == [] ==> (before + [p]) + rest[..j] == ([p] + rest)[..j + 1]
  {}

  ghost predicate ElemsMean(cx: Context, es: seq<Expr>, anns: seq<TAnn>, fa: seq<TypedArg>, isOp: bool, before: seq<TypedArg>,
                            g: TypeEnv, env: ValueEnv, vals: seq<ValueEntry>, v: Vectors)
    requires |anns| == |es|
  {
    forall i | 0 <= i < |es| && Accepted(cx, Done(anns[i])) ::
      Means(cx, es[i], Subtree(cx, anns[i], vals), anns[i].t, g, env, ContextAt(cx, es, g, fa, isOp, before, i), v)
  }

  lemma {:induction false} ElemsMeaning(cx: Context, es: seq<Expr>, st: State, fa: seq<TypedArg>, isOp: bool, before: seq<TypedArg>,
                                        g: TypeEnv, env: ValueEnv, d: Scope, seen: set<string>, vals: seq<ValueEntry>, n: nat, v: Vectors)
    requires StartElems(cx, es, st, g, d, seen) && (before == [] ==> !isOp)
    requires var (r, st') := AnnotateElems(cx, es, st, fa, isOp, before);
             && r.Done? && ElemsAccepted(cx, r.v, before == [])
             && Running(cx, st, st', g, env, d, vals, n, v)
    ensures ElemsMean(cx, es, AnnotateElems(cx, es, st, fa, isOp, before).0.v, fa, isOp, before, g, env, vals, v)
    decreases es, 0
  {
    if es != [] {
      var fa1 := if isOp then before else fa;
      var a, st1, rest, isOp', before' := ElemsCons(cx, es, st, fa, isOp, before);
      assert StartElems(cx, es[1..], st1, g, d, seen + Binders(es[0])) by { StartRest(cx, es, st, fa1, g, d, seen); }
      assert Start(cx, es[0], st, g, d, seen) by { StartRest(cx, es, st, fa1, g, d, seen); }
      ElemsOfRest(cx, a, rest, before == []);
      HeadTypesAgree(cx, es[0], st, fa1, g, d, seen, before == []);
      AnnotateElemsGrows(cx, es[1..], st1, fa, isOp', before');
      AnnotateGrows(cx, es[0], st, fa1);
      AgreeGrows(st.tables, st1.tables, g, env, v);
      if Accepted(cx, Done(a)) {
        Meaning(cx, es[0], st, fa1, g, env, d, seen, vals, n, v);
      }
      ElemsMeaning(cx, es[1..], st1, fa, isOp', before', g, env, d, seen + Binders(es[0]), vals, n, v);
      ElemsMeanCons(cx, es, a, rest, fa, isOp, before, g, env, vals, v);
    }
  }

  lemma {:induction false} ElemsMeanCons(cx: Context, es: seq<Expr>, a: TAnn, rest: seq<TAnn>, fa: seq<TypedArg>, isOp: bool, before: seq<TypedArg>,
                      g: TypeEnv, env: ValueEnv, vals: seq<ValueEntry>, v: Vectors)
    requires |rest| + 1 == |es| && (before == [] ==> !isOp)
    requires var fa1 := if isOp then before else fa;
             && a.t == TypeOf(cx, es[0], g, fa1)
             && (Accepted(cx, Done(a)) ==> Means(cx, es[0], Subtree(cx, a, vals), a.t, g, env, fa1, v))
    requires ElemsMean(cx, es[1..], rest, fa, if before == [] then MeansOperator(cx, es[0], g) else isOp,
                       before + [TypedArg(a.t, es[0])], g, env, vals, v)
    ensures ElemsMean(cx, es, [a] + rest, fa, isOp, before, g, env, vals, v)
  {
    var all := [a] + rest;
    forall i | 0 <= i < |es| && Accepted(cx, Done(all[i]))
      ensures Means(cx, es[i], Subtree(cx, all[i], vals), all[i].t, g, env, ContextAt(cx, es, g, fa, isOp, before, i), v)
    {
      if i == 0 {
        assert before + TypedElems(cx, es, g, fa, isOp, before)[..0] == before;
      } else {
        assert all[i] == rest[i - 1] && es[i] == es[1..][i - 1];
        ContextOfRest(cx, es, g, fa, isOp, before, i - 1);
        assert Accepted(cx, Done(rest[i - 1]));
      }
    }
  }

  lemma {:induction false} ListMeaning(cx: Context, es: seq<Expr>, st: State, fa: seq<TypedArg>, g: TypeEnv, env: ValueEnv, d: Scope,
                                       seen: set<string>, vals: seq<ValueEntry>, n: nat, v: Vectors)
    requires es != [] && Start(cx, List(es), st, g, d, seen) && Accepted(cx, Annotate(cx, List(es), st, fa).0)
    requires Running(cx, st, Annotate(cx, List(es), st, fa).1, g, env, d, vals, n, v)
    requires var r := AnnotateElems(cx, es, st, fa, false, []).0;
             r.Done? && ElemsMean(cx, es, r.v, fa, false, [], g, env, vals, v)
    ensures var a := Annotate(cx, List(es), st, fa).0.v; Means(cx, List(es), Subtree(cx, a, vals), a.t, g, env, fa, v)
  {
    var (r, st1) := AnnotateElems(cx, es, st, fa, false, []);
    var a := Annotate(cx, List(es), st, fa).0.v;
    ListAccepted(cx, es, st, fa, g, d, seen);
    CombineGrows(cx, es, r.v, st1);
    ElemTypesAgree(cx, es, st, fa, false, [], g, d, seen);
    ElemsFit(cx, es, st, fa, false, [], g, d, seen, vals, n);
    TreesFit(cx, List(es), st, fa, g, d, seen, vals, n);
    if r.v[0].a.AOperator? {
      ApplicationMeaning(cx, es, r.v, st1, fa, g, env, d, vals, n, v);
    } else if r.v[0].a.AAbstraction? {
      AbstractionCallMeaning(cx, es, r.v, st1, fa, g, env, d, vals, n, v);
    } else {
      HeadProper(cx, es, st, fa, g, d, seen);
      ArgListFits(cx, es, r.v, st1, d, vals, n);
      assert a.t.elems[0] == r.v[0].t;
    }
    if IsValueType(cx, a.t) {
      forall ws ensures ValueOfCall(cx, List(es), ws, g, env, fa) == ValueOf(cx, List(es), g, env, fa) {}
    }
  }

  lemma {:induction false} AbstractionCallMeaning(cx: Context, es: seq<Expr>, anns: seq<TAnn>, st: State, fa: seq<TypedArg>, g: TypeEnv,
                                                  env: ValueEnv, d: Scope, vals: seq<ValueEntry>, n: nat, v: Vectors)
    requires |anns| == |es| > 0 && anns[0].a.AAbstraction? && MeansFunction(es[0]) && !MeansOperator(cx, es[0], g)
    requires Accepted(cx, Combine(cx, es, anns, st).0)
    requires ElemsAccepted(cx, anns, true) && VectorsOk(cx, v, d, n)
    requires ElemsFitted(cx, anns, d, vals, n)
    requires ElemsMean(cx, es, anns, fa, false, [], g, env, vals, v)
    ensures var a := Combine(cx, es, anns, st).0.v;
            Denote(cx, Subtree(cx, a, vals), v) == ValueOf(cx, List(es), g, env, fa) && IsValueType(cx, a.t)
  {
    var node := Subtree(cx, Combine(cx, es, anns, st).0.v, vals);
    var sons := node.kind.sons;
    assert Accepted(cx, Done(anns[0])) && sons[0] == Subtree(cx, anns[0], vals);
    assert ContextAt(cx, es, g, fa, false, [], 0) == fa;
    var ws := CallArguments(cx, es, anns, sons, fa, g, env, d, vals, n, v);
    assert DenoteCall(cx, sons[0], ws, v) == ValueOfCall(cx, es[0], ws, g, env, fa);
    UnfoldCall(cx, node, ws, v);
    assert ws == seq(|es| - 1, i requires 0 <= i < |es| - 1 => ValueOf(cx, es[i + 1], g, env, fa));
  }

  /** The arguments of an applied abstraction, the same on both sides and of the right types. */
  lemma {:induction false} CallArguments(cx: Context, es: seq<Expr>, anns: seq<TAnn>, sons: seq<OpNode>, fa: seq<TypedArg>, g: TypeEnv,
                                         env: ValueEnv, d: Scope, vals: seq<ValueEntry>, n: nat, v: Vectors) returns (ws: seq<Word>)
    requires |anns| == |es| == |sons| > 0 && !MeansOperator(cx, es[0], g)
    requires Callable(cx, anns[0].t) && MapParams(anns[0].t) == Types(Pairs(anns[1..], es[1..]))
    requires sons[1..] == Subtrees(cx, anns[1..], vals, false)
    requires ElemsAccepted(cx, anns, true) && VectorsOk(cx, v, d, n)
    requires ElemsFitted(cx, anns, d, vals, n)
    requires ElemsMean(cx, es, anns, fa, false, [], g, env, vals, v)
    ensures |ws| == |es| - 1 && HaveTypes(cx, ws, MapParams(anns[0].t))
    ensures forall i | 0 <= i < |ws| :: ws[i] == Denote(cx, sons[i + 1], v)
    ensures forall i | 0 <= i < |ws| :: ws[i] == ValueOf(cx, es[i + 1], g, env, fa)
  {
    var ts := MapParams(anns[0].t);
    ws := seq(|es| - 1, i requires 0 <= i < |es| - 1 => Denote(cx, sons[i + 1], v));
    forall i | 0 <= i < |ws|
      ensures ws[i] == Denote(cx, sons[i + 1], v) && ws[i] == ValueOf(cx, es[i + 1], g, env, fa)
      ensures cx.alg.hasType(ws[i], ts[i])
    {
      assert Accepted(cx, Done(anns[i + 1]));
      assert sons[i + 1] == sons[1..][i] == Subtree(cx, anns[1..][i], vals) == Subtree(cx, anns[i + 1], vals);
      assert Types(Pairs(anns[1..], es[1..]))[i] == anns[i + 1].t;
      assert ContextAt(cx, es, g, fa, false, [], i + 1) == fa;
      Soundness(cx, sons[i + 1], ts[i], d, n, v);
    }
  }

  // ------------------------------------------------------ operator applications

  /** An application, with everything known about its sons. */
  ghost predicate Application(cx: Context, es: seq<Expr>, anns: seq<TAnn>, extra: seq<Constant>, requests: bool, sons: seq<OpNode>,
                              fa: seq<TypedArg>, g: TypeEnv, env: ValueEnv, d: Scope, n: nat, v: Vectors)
  {
    && |anns| == |es| > 0 && |sons| == |anns| - 1 + |extra|
    && SonTypes(sons) == AnnTypes(anns[1..]) + ConstTypes(extra)
    && (forall i | 0 <= i < |sons| :: TypedSon(cx, sons[i], requests, d, n))
    && (forall i | 1 <= i < |es| ::
          Means(cx, es[i], sons[i - 1], anns[i].t, g, env, Semantics.ElemContext(cx, es, g, fa, i), v))
    && ConstsOk(cx, extra)
    && (forall i | 0 <= i < |extra| :: Denote(cx, sons[|anns| - 1 + i], v) == extra[i].w)
  }

  lemma MeansFlags(cx: Context, e: Expr, node: OpNode, node': OpNode, t: Type, g: TypeEnv, env: ValueEnv, fa: seq<TypedArg>, v: Vectors)
    requires Means(cx, e, node, t, g, env, fa, v) && node' == node.(evaluable := node'.evaluable)
    ensures Means(cx, e, node', t, g, env, fa, v)
  {
    DenoteKind(cx, node, node', v);
    forall ws ensures DenoteCall(cx, node', ws, v) == DenoteCall(cx, node, ws, v) {
      DenoteKind(cx, node, node', Load(v, node.funNo, ws));
    }
  }

  lemma {:induction false} ApplicationHolds(cx: Context, es: seq<Expr>, anns: seq<TAnn>, st: State, fa: seq<TypedArg>, g: TypeEnv,
                                            env: ValueEnv, d: Scope, vals: seq<ValueEntry>, n: nat, v: Vectors)
    requires |anns| == |es| > 0 && anns[0].a.AOperator? && anns[0].a.cands != []
    requires var r := Resolve(cx, anns[0].a.cands, Pairs(anns[1..], es[1..]), true);
             ConstsOk(cx, Extra(r.result)) && AnnotateConsts(Extra(r.result), st).1.values <= vals
    requires ElemsFitted(cx, anns, d, vals, n) && ElemsAccepted(cx, anns, true)
    requires ElemsMean(cx, es, anns, fa, false, [], g, env, vals, v)
    ensures var r := Resolve(cx, anns[0].a.cands, Pairs(anns[1..], es[1..]), true);
            Application(cx, es, anns, Extra(r.result), cx.alg.requestsArgs(r.key),
                        ApplicationSons(cx, es, anns, st, vals), fa, g, env, d, n, v)
  {
    var r := Resolve(cx, anns[0].a.cands, Pairs(anns[1..], es[1..]), true);
    var extra := Extra(r.result);
    var consts := AnnotateConsts(extra, st).0;
    var sons := ApplicationSons(cx, es, anns, st, vals);
    ApplicationArgsFit(cx, es, anns, st, d, vals, n);
    ArgsFit(cx, es, anns, d, vals, n);
    ArgumentSonsMean(cx, es, anns, st, fa, g, env, vals, v);
    ConstantSonsMean(cx, es, anns, st, vals, v);
  }

  /** The sons of an application that are its arguments. */
  lemma {:induction false} ArgumentSonsMean(cx: Context, es: seq<Expr>, anns: seq<TAnn>, st: State, fa: seq<TypedArg>, g: TypeEnv,
                                            env: ValueEnv, vals: seq<ValueEntry>, v: Vectors)
    requires |anns| == |es| > 0 && anns[0].a.AOperator? && anns[0].a.cands != []
    requires ElemsAccepted(cx, anns, true) && ElemsMean(cx, es, anns, fa, false, [], g, env, vals, v)
    ensures var sons := ApplicationSons(cx, es, anns, st, vals);
            && |sons| >= |es| - 1
            && forall i | 1 <= i < |es| ::
                 Means(cx, es[i], sons[i - 1], anns[i].t, g, env, Semantics.ElemContext(cx, es, g, fa, i), v)
  {
    var r := Resolve(cx, anns[0].a.cands, Pairs(anns[1..], es[1..]), true);
    var consts := AnnotateConsts(Extra(r.result), st).0;
    var sons := ApplicationSons(cx, es, anns, st, vals);
    forall i | 1 <= i < |es|
      ensures Means(cx, es[i], sons[i - 1], anns[i].t, g, env, Semantics.ElemContext(cx, es, g, fa, i), v)
    {
      assert (anns[1..] + consts)[i - 1] == anns[i];
      assert Accepted(cx, Done(anns[i]));
      MeansFlags(cx, es[i], Subtree(cx, anns[i], vals), sons[i - 1], anns[i].t, g, env, Semantics.ElemContext(cx, es, g, fa, i), v);
    }
  }

  /** And those that are appended constants. */
  lemma {:induction false} ConstantSonsMean(cx: Context, es: seq<Expr>, anns: seq<TAnn>, st: State, vals: seq<ValueEntry>, v: Vectors)
    requires |anns| == |es| > 0 && anns[0].a.AOperator? && anns[0].a.cands != []
    requires var r := Resolve(cx, anns[0].a.cands, Pairs(anns[1..], es[1..]), true);
             ConstsOk(cx, Extra(r.result)) && AnnotateConsts(Extra(r.result), st).1.values <= vals
    ensures var extra := Extra(Resolve(cx, anns[0].a.cands, Pairs(anns[1..], es[1..]), true).result);
            var sons := ApplicationSons(cx, es, anns, st, vals);
            && |sons| == |anns| - 1 + |extra|
            && forall i | 0 <= i < |extra| :: Denote(cx, sons[|anns| - 1 + i], v) == extra[i].w
  {
    var r := Resolve(cx, anns[0].a.cands, Pairs(anns[1..], es[1..]), true);
    var extra := Extra(r.result);
    var consts := AnnotateConsts(extra, st).0;
    var sons := ApplicationSons(cx, es, anns, st, vals);
    ConstTrees(cx, extra, st, vals);
    forall i | 0 <= i < |extra| ensures Denote(cx, sons[|anns| - 1 + i], v) == extra[i].w {
      assert (anns[1..] + consts)[|anns| - 1 + i] == consts[i];
    }
  }

  /** The program of an operator gets the same answers from tree and query. */
  lemma {:induction false} ProgramMeaning(cx: Context, p: Program, es: seq<Expr>, anns: seq<TAnn>, extra: seq<Constant>,
                                          node: OpNode, t: Type, fa: seq<TypedArg>, g: TypeEnv, env: ValueEnv, d: Scope, n: nat, v: Vectors)
    requires Terminates(p) && node.kind.KOperator? && es != []
    requires var requests := cx.alg.requestsArgs(OpKey(node.kind.alg, node.kind.opFunId % OPBASE));
             && Application(cx, es, anns, extra, requests, node.kind.sons, fa, g, env, d, n, v)
             && ProgramOk(cx, p, SonTypes(node.kind.sons), requests, t)
    requires VectorsOk(cx, v, d, n)
    ensures DenoteProgram(cx, p, node, v) == ValueOfProgram(cx, p, List(es), extra, g, env, fa)
    decreases p.Rank()
  {
    if p.Ask? {
      AnswerMeaning(cx, p, es, anns, extra, node, t, fa, g, env, d, n, v);
      ProgramMeaning(cx, p.cont(DenoteCall(cx, node.kind.sons[p.son], p.args, v)), es, anns, extra, node, t, fa, g, env, d, n, v);
    }
  }

  /** The answer of a son is the one of the direct semantics, and the program can go on with it. */
  lemma {:induction false} AnswerMeaning(cx: Context, p: Program, es: seq<Expr>, anns: seq<TAnn>, extra: seq<Constant>,
                                         node: OpNode, t: Type, fa: seq<TypedArg>, g: TypeEnv, env: ValueEnv, d: Scope, n: nat, v: Vectors)
    requires Terminates(p) && p.Ask? && node.kind.KOperator? && es != []
    requires var requests := cx.alg.requestsArgs(OpKey(node.kind.alg, node.kind.opFunId % OPBASE));
             && Application(cx, es, anns, extra, requests, node.kind.sons, fa, g, env, d, n, v)
             && ProgramOk(cx, p, SonTypes(node.kind.sons), requests, t)
    requires VectorsOk(cx, v, d, n)
    ensures p.son < |node.kind.sons| == |es| - 1 + |extra|
    ensures var answer := DenoteCall(cx, node.kind.sons[p.son], p.args, v);
            && answer == (if p.son < |es| - 1
                          then ValueOfCall(cx, es[p.son + 1], p.args, g, env, Semantics.ElemContext(cx, es, g, fa, p.son + 1))
                          else extra[p.son - (|es| - 1)].w)
            && ProgramOk(cx, p.cont(answer), SonTypes(node.kind.sons),
                         cx.alg.requestsArgs(OpKey(node.kind.alg, node.kind.opFunId % OPBASE)), t)
  {
    var sons := node.kind.sons;
    var requests := cx.alg.requestsArgs(OpKey(node.kind.alg, node.kind.opFunId % OPBASE));
    var son := sons[p.son];
    var n0 := |es| - 1;
    assert son.typeExpr == SonTypes(sons)[p.son] == (AnnTypes(anns[1..]) + ConstTypes(extra))[p.son];
    assert TypedSon(cx, son, requests, d, n);
    var answer := DenoteCall(cx, son, p.args, v);
    if p.son < n0 {
      assert son.typeExpr == anns[p.son + 1].t;
      assert Means(cx, es[p.son + 1], son, anns[p.son + 1].t, g, env, Semantics.ElemContext(cx, es, g, fa, p.son + 1), v);
    } else {
      assert answer == Denote(cx, sons[|anns| - 1 + (p.son - n0)], v);
    }
    if Callable(cx, son.typeExpr) {
      CallSoundness(cx, son, p.args, d, n, v);
    } else {
      Soundness(cx, son, son.typeExpr, d, n, v);
    }
  }

  lemma PairsTail(anns: seq<TAnn>, es: seq<Expr>)
    requires |anns| == |es| > 0
    ensures Pairs(anns[1..], es[1..]) == Pairs(anns, es)[1..]
    ensures AnnTypes(anns[1..]) == Types(Pairs(anns[1..], es[1..]))
  {}

  lemma {:induction false} ApplicationMeaning(cx: Context, es: seq<Expr>, anns: seq<TAnn>, st: State, fa: seq<TypedArg>, g: TypeEnv,
                                              env: ValueEnv, d: Scope, vals: seq<ValueEntry>, n: nat, v: Vectors)
    requires ContextOk(cx) && |anns| == |es| > 0 && anns[0].a.AOperator?
    requires MeansOperator(cx, es[0], g) && anns[0].a.cands == cx.cat.operators[es[0].name]
    requires Accepted(cx, Combine(cx, es, anns, st).0) && Covers(Combine(cx, es, anns, st).1, vals, n)
    requires ElemsAccepted(cx, anns, true) && VectorsOk(cx, v, d, n)
    requires ElemsFitted(cx, anns, d, vals, n)
    requires ElemsMean(cx, es, anns, fa, false, [], g, env, vals, v)
    requires Pairs(anns, es) == TypedElems(cx, es, g, fa, false, [])
    ensures var a := Combine(cx, es, anns, st).0.v;
            IsValueType(cx, a.t) ==> Denote(cx, Subtree(cx, a, vals), v) == ValueOf(cx, List(es), g, env, fa)
  {
    ApplicationResolved(cx, es, anns, st);
    ApplicationHolds(cx, es, anns, st, fa, g, env, d, vals, n, v);
    var a := Combine(cx, es, anns, st).0.v;
    PairsTail(anns, es);
    var r := Resolve(cx, anns[0].a.cands, Pairs(anns[1..], es[1..]), true);
    if IsValueType(cx, a.t) {
      ApplicationValue(cx, es, anns, Subtree(cx, a, vals), a.t, fa, g, env, d, n, v);
    }
  }

  lemma {:induction false} ApplicationValue(cx: Context, es: seq<Expr>, anns: seq<TAnn>, node: OpNode, t: Type, fa: seq<TypedArg>,
                                            g: TypeEnv, env: ValueEnv, d: Scope, n: nat, v: Vectors)
    requires |anns| == |es| > 0 && MeansOperator(cx, es[0], g) && cx.cat.operators[es[0].name] != []
    requires Pairs(anns[1..], es[1..]) == TypedElems(cx, es, g, fa, false, [])[1..]
    requires VectorsOk(cx, v, d, n)
    requires node.kind.KOperator? && !node.IsAbstraction()
    requires var ps := Pairs(anns[1..], es[1..]);
             var r := Resolve(cx, cx.cat.operators[es[0].name], ps, true);
             && OpKey(node.kind.alg, node.kind.opFunId % OPBASE) == r.key
             && node.kind.opFunId / OPBASE == cx.alg.select(r.key, Types(ps))
             && Application(cx, es, anns, Extra(r.result), cx.alg.requestsArgs(r.key), node.kind.sons, fa, g, env, d, n, v)
             && SignatureOk(cx, r.key, cx.alg.select(r.key, Types(ps)), SonTypes(node.kind.sons), t)
    ensures Denote(cx, node, v) == ValueOf(cx, List(es), g, env, fa)
  {
    var ps := Pairs(anns[1..], es[1..]);
    var r := Resolve(cx, cx.cat.operators[es[0].name], ps, true);
    var args := NodeArgs(cx, node.kind.sons, v);
    ArgumentsMean(cx, es, anns, Extra(r.result), cx.alg.requestsArgs(r.key), node.kind.sons, fa, g, env, d, n, v);
    UnfoldOperator(cx, node, v);
    UnfoldArguments(cx, es, args, Extra(r.result), cx.alg.requestsArgs(r.key), g, env, fa);
    UnfoldApplication(cx, es, args, g, env, fa);
    ProgramMeaning(cx, OperatorProgram(cx, node, v), es, anns, Extra(r.result), node, t, fa, g, env, d, n, v);
  }

  lemma UnfoldArguments(cx: Context, es: seq<Expr>, args: seq<Arg>, extra: seq<Constant>, requests: bool,
                        g: TypeEnv, env: ValueEnv, fa: seq<TypedArg>)
    requires es != []
    requires var ps := TypedElems(cx, es, g, fa, false, [])[1..];
             && |args| == |ps| + |extra|
             && forall i | 0 <= i < |args| ::
                  if requests || (i < |ps| && !IsValueType(cx, ps[i].t)) then args[i].Supplier?
                  else args[i] == Val(ArgumentValue(cx, es, extra, g, env, fa, i))
    ensures ArgumentsOf(cx, List(es), extra, requests, g, env, fa) == args
  {
    var args' := ArgumentsOf(cx, List(es), extra, requests, g, env, fa);
    forall i | 0 <= i < |args| ensures args[i] == args'[i] {
      UnfoldArgument(cx, es, extra, requests, g, env, fa, i);
    }
  }

  lemma UnfoldArgument(cx: Context, es: seq<Expr>, extra: seq<Constant>, requests: bool,
                       g: TypeEnv, env: ValueEnv, fa: seq<TypedArg>, i: nat)
    requires es != [] && i < |es| - 1 + |extra|
    ensures var ps := TypedElems(cx, es, g, fa, false, [])[1..];
            ArgumentsOf(cx, List(es), extra, requests, g, env, fa)[i]
              == if requests || (i < |ps| && !IsValueType(cx, ps[i].t)) then Supplier
                 else Val(ArgumentValue(cx, es, extra, g, env, fa, i))
  {}

  lemma UnfoldApplication(cx: Context, es: seq<Expr>, args: seq<Arg>, g: TypeEnv, env: ValueEnv, fa: seq<TypedArg>)
    requires es != [] && MeansOperator(cx, es[0], g) && cx.cat.operators[es[0].name] != []
    requires var ps := TypedElems(cx, es, g, fa, false, [])[1..];
             var r := Resolve(cx, cx.cat.operators[es[0].name], ps, true);
             args == ArgumentsOf(cx, List(es), Extra(r.result), cx.alg.requestsArgs(r.key), g, env, fa)
    ensures var ps := TypedElems(cx, es, g, fa, false, [])[1..];
            var r := Resolve(cx, cx.cat.operators[es[0].name], ps, true);
            ValueOf(cx, List(es), g, env, fa)
              == ValueOfProgram(cx, cx.alg.valueMap(r.key, cx.alg.select(r.key, Types(ps)), args), List(es),
                                Extra(r.result), g, env, fa)
  {}

  /** The value of argument `i` of an application, appended constants included. */
  ghost function ArgumentValue(cx: Context, es: seq<Expr>, extra: seq<Constant>, g: TypeEnv, env: ValueEnv,
                               fa: seq<TypedArg>, i: nat): Word
    requires es != [] && i < |es| - 1 + |extra|
  {
    if i >= |es| - 1 then extra[i - (|es| - 1)].w
    else ValueOf(cx, es[i + 1], g, env, Semantics.ElemContext(cx, es, g, fa, i + 1))
  }

  lemma {:induction false} ArgumentsMean(cx: Context, es: seq<Expr>, anns: seq<TAnn>, extra: seq<Constant>, requests: bool, sons: seq<OpNode>,
                      fa: seq<TypedArg>, g: TypeEnv, env: ValueEnv, d: Scope, n: nat, v: Vectors)
    requires Application(cx, es, anns, extra, requests, sons, fa, g, env, d, n, v) && VectorsOk(cx, v, d, n)
    ensures forall i | 0 <= i < |sons| ::
              && sons[i].evaluable == (!requests && (i >= |es| - 1 || IsValueType(cx, anns[i + 1].t)))
              && (sons[i].evaluable ==> cx.alg.hasType(Denote(cx, sons[i], v), sons[i].typeExpr))
              && (sons[i].evaluable ==> Denote(cx, sons[i], v) == ArgumentValue(cx, es, extra, g, env, fa, i))
    ensures ArgsMatch(cx, NodeArgs(cx, sons, v), SonTypes(sons), requests)
  {
    forall i | 0 <= i < |sons|
      ensures && sons[i].evaluable == (!requests && (i >= |es| - 1 || IsValueType(cx, anns[i + 1].t)))
              && sons[i].evaluable == (!requests && IsValueType(cx, sons[i].typeExpr))
              && (sons[i].evaluable ==> cx.alg.hasType(Denote(cx, sons[i], v), sons[i].typeExpr))
              && (sons[i].evaluable ==> Denote(cx, sons[i], v) == ArgumentValue(cx, es, extra, g, env, fa, i))
    {
      assert TypedSon(cx, sons[i], requests, d, n);
      assert sons[i].typeExpr == SonTypes(sons)[i] == (AnnTypes(anns[1..]) + ConstTypes(extra))[i];
      if i < |es| - 1 {
        assert sons[i].typeExpr == anns[i + 1].t;
        assert Means(cx, es[i + 1], sons[i], anns[i + 1].t, g, env, Semantics.ElemContext(cx, es, g, fa, i + 1), v);
      } else {
        assert Denote(cx, sons[|anns| - 1 + (i - (|es| - 1))], v) == extra[i - (|es| - 1)].w;
      }
      if sons[i].evaluable {
        Soundness(cx, sons[i], sons[i].typeExpr, d, n, v);
      }
    }
  }
}
