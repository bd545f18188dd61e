/**
 Which queries annotation accepts, read off the query itself: every part has a clean lexical
 type, and every function has new names and proper types for its parameters. What is accepted
 has its lexical type, and is defined exactly if all objects named anywhere in it are.
 */
module QueryAcceptance {
  import opened Basics
  import opened QueryTerms
  import opened Annotation
  import opened AnnotationState
  import opened OperatorTree
  import opened Semantics
  import opened TypedTrees
  import opened CompilerTypes

  // ------------------------------------------------------------- read off the query

  /** Parameters with new names, none of them an operator's, and accepted types. */
  predicate ProperParams(cx: Context, ps: seq<Param>, fa: seq<TypedArg>, taken: set<string>) {
    && (forall i, j | 0 <= i < j < |ps| :: ps[i].name != ps[j].name)
    && forall i | 0 <= i < |ps| ::
         && ps[i].name !in taken && ps[i].name !in cx.cat.operators
         && ParamTypeOk(cx, ParamType(cx, ps[i].ptype, fa))
  }

  /** All parts of the query have clean types; `taken` are the parameter names used to the left. */
  predicate WellTyped(cx: Context, e: Expr, g: TypeEnv, fa: seq<TypedArg>, taken: set<string>)
    decreases e, 1
  {
    && Clean(TypeOf(cx, e, g, fa))
    && match e
       case Const(_) => true
       case Sym(_) => true
       case FunObj(_, def) => WellTyped(cx, def, map[], [], {})
       case Fun(ps, body) =>
         && ProperParams(cx, ps, fa, taken)
         && WellTyped(cx, body, Bind(g, ps, ParamTypes(cx, ps, fa)), fa, taken + ParamNames(ps))
       case List(es) => WellTypedElems(cx, es, g, fa, taken, false, [])
       case Counter(_, e1) => WellTyped(cx, e1, g, fa, taken)
       case Memory(_, e1) => WellTyped(cx, e1, g, fa, taken)
  }

  /** An operator at the head of a list has no type of its own. */
  predicate WellTypedElems(cx: Context, es: seq<Expr>, g: TypeEnv, fa: seq<TypedArg>, taken: set<string>,
                           isOp: bool, before: seq<TypedArg>)
    decreases es, 0
  {
    if es == [] then true
    else
      var fa1 := if isOp then before else fa;
      var head := before == [] && MeansOperator(cx, es[0], g);
      && (head || WellTyped(cx, es[0], g, fa1, taken))
      && WellTypedElems(cx, es[1..], g, fa, taken + Binders(es[0]), if before == [] then head else isOp,
                        before + [TypedArg(TypeOf(cx, es[0], g, fa1), es[0])])
  }

  /** The objects a query names, those in definitions of stored functions included. */
  function ObjectsIn(cx: Context, e: Expr): set<string>
    decreases e, 1
  {
    match e
    case Const(_) => {}
    case Sym(x) => if x in cx.cat.objects then {x} else {}
    case FunObj(_, def) => ObjectsIn(cx, def)
    case Fun(_, body) => ObjectsIn(cx, body)
    case List(es) => ObjectsInAll(cx, es)
    case Counter(_, e1) => ObjectsIn(cx, e1)
    case Memory(_, e1) => ObjectsIn(cx, e1)
  }

  function ObjectsInAll(cx: Context, es: seq<Expr>): set<string>
    decreases es, 0
  {
    if es == [] then {} else ObjectsIn(cx, es[0]) + ObjectsInAll(cx, es[1..])
  }

  predicate Defined(cx: Context, names: set<string>) {
    forall x | x in names :: x in cx.cat.objects ==> cx.cat.objects[x].isDefined
  }

  /** All symbols in a type expression. */
  function Symbols(t: Type): set<string>
    decreases t, 1
  {
    match t
    case TSym(x) => {x}
    case TInt(_) => {}
    case TList(ts) => SymbolsOf(ts)
  }

  function SymbolsOf(ts: seq<Type>): set<string>
    decreases ts, 0
  {
    if ts == [] then {} else Symbols(ts[0]) + SymbolsOf(ts[1..])
  }

  /** A type expression is clean exactly if `typeerror` occurs nowhere in it. */
  lemma {:induction false} CleanExactly(t: Type)
    ensures Clean(t) <==> "typeerror" !in Symbols(t)
    decreases t, 1
  {
    if t.TList? { AllCleanExactly(t.elems); }
  }

  lemma {:induction false} AllCleanExactly(ts: seq<Type>)
    ensures (forall i | 0 <= i < |ts| :: Clean(ts[i])) <==> "typeerror" !in SymbolsOf(ts)
    decreases ts, 0
  {
    if ts != [] {
      CleanExactly(ts[0]);
      AllCleanExactly(ts[1..]);
      assert forall i | 1 <= i < |ts| :: ts[i] == ts[1..][i - 1];
      assert forall i | 0 <= i < |ts| - 1 :: ts[1..][i] == ts[i + 1];
    }
  }

  // ------------------------------------------------------ well-typed means accepted

  /** Annotation of `e` in `st` ends as the query promises. */
  ghost predicate Annotated(cx: Context, e: Expr, st: State, fa: seq<TypedArg>, g: TypeEnv)
    requires st.tables.Valid()
  {
    var (r, st') := Annotate(cx, e, st, fa);
    && r.Done? && r.v.t == TypeOf(cx, e, g, fa)
    && st'.tables.names.Keys == st.tables.names.Keys + Binders(e)
    && st'.isDefined == (st.isDefined && Defined(cx, ObjectsIn(cx, e)))
  }

  lemma {:induction false} WellTypedIsAccepted(cx: Context, e: Expr, st: State, fa: seq<TypedArg>, g: TypeEnv, d: Scope,
                                               seen: set<string>)
    requires Start(cx, e, st, g, d, seen) && WellTyped(cx, e, g, fa, st.tables.names.Keys)
    ensures Annotated(cx, e, st, fa, g)
    decreases e, 2
  {
    match e
    case Const(_) =>
    case Sym(x) => SymbolIsAccepted(cx, x, st, fa, g, d, seen);
    case FunObj(_, def) =>
      var none: TypeEnv := map[];
      assert none.Keys == {};
      WellTypedIsAccepted(cx, def, st.AddValue(ValueEntry(0, false, true)).(tables := EMPTYTABLES), [], none, map[], {});
    case Fun(ps, body) => FunctionIsAccepted(cx, ps, body, st, fa, g, d, seen);
    case List(es) =>
      if es != [] { ListIsAccepted(cx, es, st, fa, g, d, seen); }
    case Counter(no, e1) => WellTypedIsAccepted(cx, e1, st.AddValue(ValueEntry(no, true, false)), fa, g, d, seen);
    case Memory(size, e1) => WellTypedIsAccepted(cx, e1, st.AddValue(ValueEntry(size, true, false)), fa, g, d, seen);
  }

  lemma SymbolIsAccepted(cx: Context, x: string, st: State, fa: seq<TypedArg>, g: TypeEnv, d: Scope, seen: set<string>)
    requires Start(cx, Sym(x), st, g, d, seen) && WellTyped(cx, Sym(x), g, fa, st.tables.names.Keys)
    ensures Annotated(cx, Sym(x), st, fa, g)
  {
    assert x in st.tables.names && x !in cx.cat.objects && x !in cx.cat.operators ==> x in g;
  }

  /** Parameters are entered exactly if they are proper. */
  lemma {:induction false} ParamsEnteredExactly(cx: Context, ps: seq<Param>, fa: seq<TypedArg>, tb: Tables, position: nat, f: nat)
    requires tb.Valid()
    ensures EnterParams(cx, ps, fa, tb, position, f).Done? <==> ProperParams(cx, ps, fa, tb.names.Keys)
    decreases |ps|
  {
    if ps != [] {
      var tb1 := tb.EnterVariable(ps[0].name, VarEntry(position, f, ParamType(cx, ps[0].ptype, fa)));
      assert tb1.names.Keys == tb.names.Keys + {ps[0].name};
      ParamsEnteredExactly(cx, ps[1..], fa, tb1, position + 1, f);
      ProperCons(cx, ps, fa, tb.names.Keys);
    }
  }

  lemma ProperCons(cx: Context, ps: seq<Param>, fa: seq<TypedArg>, taken: set<string>)
    requires ps != []
    ensures ProperParams(cx, ps, fa, taken) <==>
              && ps[0].name !in taken && ps[0].name !in cx.cat.operators
              && ParamTypeOk(cx, ParamType(cx, ps[0].ptype, fa))
              && ProperParams(cx, ps[1..], fa, taken + {ps[0].name})
  {
    var rest := ps[1..];
    if ProperParams(cx, ps, fa, taken) {
      forall i | 0 <= i < |rest|
        ensures rest[i].name !in taken + {ps[0].name} && rest[i].name !in cx.cat.operators
        ensures ParamTypeOk(cx, ParamType(cx, rest[i].ptype, fa))
      {
        assert rest[i] == ps[i + 1] && ps[0].name != ps[i + 1].name;
      }
      forall i, j | 0 <= i < j < |rest| ensures rest[i].name != rest[j].name {
        assert rest[i] == ps[i + 1] && rest[j] == ps[j + 1];
      }
    } else if ProperParams(cx, rest, fa, taken + {ps[0].name}) {
      assert forall i | 0 < i < |ps| :: ps[i] == rest[i - 1];
    }
  }

  /** A function with proper parameters is annotated by annotating its body. */
  lemma FunctionUnfolds(cx: Context, ps: seq<Param>, body: Expr, st: State, fa: seq<TypedArg>)
    requires st.tables.Valid() && EnterParams(cx, ps, fa, st.tables, 1, st.functionno + 1).Done?
    ensures var (r, st') := Annotate(cx, body, BodyState(cx, ps, st, fa), fa);
            Annotate(cx, Fun(ps, body), st, fa) == (CloseFunction(r, ParamTypes(cx, ps, fa), st.functionno + 1), st')
  {
    EnterParamsValid(cx, ps, fa, st.tables, 1, st.functionno + 1);
  }

  lemma BodyStarts(cx: Context, ps: seq<Param>, body: Expr, st: State, fa: seq<TypedArg>, g: TypeEnv, d: Scope, seen: set<string>)
    requires Start(cx, Fun(ps, body), st, g, d, seen) && WellTyped(cx, Fun(ps, body), g, fa, st.tables.names.Keys)
    ensures EnterParams(cx, ps, fa, st.tables, 1, st.functionno + 1).Done?
    ensures BodyState(cx, ps, st, fa).tables.names.Keys == st.tables.names.Keys + ParamNames(ps)
    ensures var n, ts := st.functionno + 1, ParamTypes(cx, ps, fa);
            Start(cx, body, BodyState(cx, ps, st, fa), Bind(g, ps, ts), d[n := ts], seen + ParamNames(ps))
    ensures WellTyped(cx, body, Bind(g, ps, ParamTypes(cx, ps, fa)), fa, st.tables.names.Keys + ParamNames(ps))
  {
    FunctionParts(cx, ps, body, g, fa, st.tables.names.Keys);
    ParamsEnteredExactly(cx, ps, fa, st.tables, 1, st.functionno + 1);
    BodyStartsWith(cx, ps, body, st, fa, g, d, seen);
    BodyNames(cx, ps, body, st, fa, g, d, seen);
  }

  lemma BodyStartsWith(cx: Context, ps: seq<Param>, body: Expr, st: State, fa: seq<TypedArg>, g: TypeEnv, d: Scope, seen: set<string>)
    requires Start(cx, Fun(ps, body), st, g, d, seen) && EnterParams(cx, ps, fa, st.tables, 1, st.functionno + 1).Done?
    ensures var n, ts := st.functionno + 1, ParamTypes(cx, ps, fa);
            Start(cx, body, BodyState(cx, ps, st, fa), Bind(g, ps, ts), d[n := ts], seen + ParamNames(ps))
  {
    var n := st.functionno + 1;
    var st1 := st.(functionno := n, tables := TablesAfterParams(cx, ps, fa, st.tables, 1, n));
    assert BodyState(cx, ps, st, fa) == st1;
    StartBody(cx, ps, body, st, fa, g, d, seen);
  }

  lemma FunctionParts(cx: Context, ps: seq<Param>, body: Expr, g: TypeEnv, fa: seq<TypedArg>, taken: set<string>)
    requires WellTyped(cx, Fun(ps, body), g, fa, taken)
    ensures ProperParams(cx, ps, fa, taken)
    ensures WellTyped(cx, body, Bind(g, ps, ParamTypes(cx, ps, fa)), fa, taken + ParamNames(ps))
  {}

  lemma BodyNames(cx: Context, ps: seq<Param>, body: Expr, st: State, fa: seq<TypedArg>, g: TypeEnv, d: Scope, seen: set<string>)
    requires Start(cx, Fun(ps, body), st, g, d, seen) && EnterParams(cx, ps, fa, st.tables, 1, st.functionno + 1).Done?
    ensures BodyState(cx, ps, st, fa).tables.names.Keys == st.tables.names.Keys + ParamNames(ps)
  {
    MatchBody(cx, ps, fa, st.tables, st.functionno, g, d);
  }

  lemma {:induction false} FunctionIsAccepted(cx: Context, ps: seq<Param>, body: Expr, st: State, fa: seq<TypedArg>, g: TypeEnv,
                                              d: Scope, seen: set<string>)
    requires Start(cx, Fun(ps, body), st, g, d, seen) && WellTyped(cx, Fun(ps, body), g, fa, st.tables.names.Keys)
    ensures Annotated(cx, Fun(ps, body), st, fa, g)
    decreases body, 3
  {
    var n, ts := st.functionno + 1, ParamTypes(cx, ps, fa);
    BodyStarts(cx, ps, body, st, fa, g, d, seen);
    WellTypedIsAccepted(cx, body, BodyState(cx, ps, st, fa), fa, Bind(g, ps, ts), d[n := ts], seen + ParamNames(ps));
    ClosedAnnotation(cx, ps, body, st, fa, g);
  }

  lemma ClosedAnnotation(cx: Context, ps: seq<Param>, body: Expr, st: State, fa: seq<TypedArg>, g: TypeEnv)
    requires st.tables.Valid() && EnterParams(cx, ps, fa, st.tables, 1, st.functionno + 1).Done?
    requires BodyState(cx, ps, st, fa).tables.names.Keys == st.tables.names.Keys + ParamNames(ps)
    requires Annotated(cx, body, BodyState(cx, ps, st, fa), fa, Bind(g, ps, ParamTypes(cx, ps, fa)))
    ensures Annotated(cx, Fun(ps, body), st, fa, g)
  {
    FunctionUnfolds(cx, ps, body, st, fa);
  }

  lemma ElemsStart(cx: Context, es: seq<Expr>, st: State, fa: seq<TypedArg>, g: TypeEnv, d: Scope, seen: set<string>)
    requires es != [] && Start(cx, List(es), st, g, d, seen) && WellTyped(cx, List(es), g, fa, st.tables.names.Keys)
    ensures StartElems(cx, es, st, g, d, seen) && WellTypedElems(cx, es, g, fa, st.tables.names.Keys, false, [])
    ensures MeansOperator(cx, es[0], g) || Clean(TypeOf(cx, es[0], g, fa))
  {
    assert MeansOperator(cx, es[0], g) || WellTyped(cx, es[0], g, fa, st.tables.names.Keys);
  }

  /** The elements are annotated one by one, and the list is put together from them. */
  lemma {:induction false} ListIsAccepted(cx: Context, es: seq<Expr>, st: State, fa: seq<TypedArg>, g: TypeEnv, d: Scope,
                                          seen: set<string>)
    requires es != [] && Start(cx, List(es), st, g, d, seen) && WellTyped(cx, List(es), g, fa, st.tables.names.Keys)
    ensures Annotated(cx, List(es), st, fa, g)
    decreases es, 2
  {
    ElemsStart(cx, es, st, fa, g, d, seen);
    ElemsAreAccepted(cx, es, st, fa, false, [], g, d, seen);
    var (r, st1) := AnnotateElems(cx, es, st, fa, false, []);
    assert r.v[0].t == TypeOf(cx, es[0], g, fa) by { assert Pairs(r.v, es)[0] == TypedElems(cx, es, g, fa, false, [])[0]; }
    HeadIs(cx, es, st, fa, g, d, seen);
    ListFitsTogether(cx, es, r.v, st1, fa, g);
    CombinedAnnotation(cx, es, r.v, st, st1, fa, g);
  }

  lemma CombinedAnnotation(cx: Context, es: seq<Expr>, anns: seq<TAnn>, st: State, st1: State, fa: seq<TypedArg>, g: TypeEnv)
    requires es != [] && st.tables.Valid() && AnnotateElems(cx, es, st, fa, false, []) == (Done(anns), st1)
    requires st1.tables.names.Keys == st.tables.names.Keys + BindersOf(es)
    requires st1.isDefined == (st.isDefined && Defined(cx, ObjectsInAll(cx, es)))
    requires |anns| == |es| && var r := Combine(cx, es, anns, st1).0; r.Done? && r.v.t == TypeOf(cx, List(es), g, fa)
    ensures Annotated(cx, List(es), st, fa, g)
  {
    CombineGrows(cx, es, anns, st1);
    assert Annotate(cx, List(es), st, fa) == Combine(cx, es, anns, st1);
  }

  /** The head of a list of accepted elements tells what the list is. */
  lemma HeadIs(cx: Context, es: seq<Expr>, st: State, fa: seq<TypedArg>, g: TypeEnv, d: Scope, seen: set<string>)
    requires es != [] && StartElems(cx, es, st, g, d, seen)
    requires var r := AnnotateElems(cx, es, st, fa, false, []).0;
             && r.Done? && r.v[0].t == TypeOf(cx, es[0], g, fa)
             && (MeansOperator(cx, es[0], g) || Clean(TypeOf(cx, es[0], g, fa)))
    ensures var a := AnnotateElems(cx, es, st, fa, false, []).0.v[0];
            && (a.a.AOperator? <==> MeansOperator(cx, es[0], g))
            && (a.a.AOperator? ==> a.a.cands == cx.cat.operators[es[0].name])
            && (a.a.AAbstraction? <==> MeansFunction(es[0])) && !a.a.AFunctionError?
  {
    StartRest(cx, es, st, fa, g, d, seen);
    var r := Annotate(cx, es[0], st, fa).0;
    assert r.Done? && AnnotateElems(cx, es, st, fa, false, []).0.v[0] == r.v;
    AnnotatedOperator(cx, es[0], st, fa, g, d, seen);
    ErrorHasNoType(cx, es[0], st, fa);
  }

  lemma ErrorHasNoType(cx: Context, e: Expr, st: State, fa: seq<TypedArg>)
    requires st.tables.Valid()
    ensures var r := Annotate(cx, e, st, fa).0; r.Done? && r.v.a.AFunctionError? ==> r.v.t == TYPEERROR
    decreases e
  {
    match e
    case FunObj(_, def) => ErrorHasNoType(cx, def, st.AddValue(ValueEntry(0, false, true)).(tables := EMPTYTABLES), []);
    case List(es) =>
      if es != [] { var (r, st1) := AnnotateElems(cx, es, st, fa, false, []); }
    case _ =>
  }

  lemma ListFitsTogether(cx: Context, es: seq<Expr>, anns: seq<TAnn>, st: State, fa: seq<TypedArg>, g: TypeEnv)
    requires |anns| == |es| > 0 && Clean(TypeOf(cx, List(es), g, fa))
    requires Pairs(anns, es) == TypedElems(cx, es, g, fa, false, [])
    requires anns[0].a.AOperator? <==> MeansOperator(cx, es[0], g)
    requires anns[0].a.AOperator? ==> anns[0].a.cands == cx.cat.operators[es[0].name]
    requires (anns[0].a.AAbstraction? <==> MeansFunction(es[0])) && !anns[0].a.AFunctionError?
    ensures var r := Combine(cx, es, anns, st).0; r.Done? && r.v.t == TypeOf(cx, List(es), g, fa)
  {
    var ps := TypedElems(cx, es, g, fa, false, []);
    assert ps[1..] == Pairs(anns[1..], es[1..]);
    assert ps[0].t == anns[0].t;
    assert Types(ps) == seq(|anns|, i requires 0 <= i < |anns| => anns[i].t);
  }

  /** Annotation of the elements ends as the list promises. */
  ghost predicate ElemsAnnotated(cx: Context, es: seq<Expr>, st: State, fa: seq<TypedArg>, isOp: bool,
                                 before: seq<TypedArg>, g: TypeEnv)
    requires st.tables.Valid()
  {
    var (r, st') := AnnotateElems(cx, es, st, fa, isOp, before);
    && r.Done? && Pairs(r.v, es) == TypedElems(cx, es, g, fa, isOp, before)
    && st'.tables.names.Keys == st.tables.names.Keys + BindersOf(es)
    && st'.isDefined == (st.isDefined && Defined(cx, ObjectsInAll(cx, es)))
  }

  lemma {:induction false} ElemsAreAccepted(cx: Context, es: seq<Expr>, st: State, fa: seq<TypedArg>, isOp: bool,
                                            before: seq<TypedArg>, g: TypeEnv, d: Scope, seen: set<string>)
    requires StartElems(cx, es, st, g, d, seen)
    requires WellTypedElems(cx, es, g, fa, st.tables.names.Keys, isOp, before)
    ensures ElemsAnnotated(cx, es, st, fa, isOp, before, g)
    decreases es, 0
  {
    if es != [] {
      var fa1 := if isOp then before else fa;
      StartRest(cx, es, st, fa1, g, d, seen);
      ElemIsAccepted(cx, es[0], st, fa1, g, d, seen, before == []);
      var (r, st1) := Annotate(cx, es[0], st, fa1);
      var isOp' := if before == [] then r.v.a.AOperator? else isOp;
      var before' := before + [TypedArg(r.v.t, es[0])];
      ElemsAreAccepted(cx, es[1..], st1, fa, isOp', before', g, d, seen + Binders(es[0]));
      ElemsJoin(cx, es, st, fa, isOp, before, g);
    }
  }

  lemma {:induction false} ElemsJoin(cx: Context, es: seq<Expr>, st: State, fa: seq<TypedArg>, isOp: bool,
                                     before: seq<TypedArg>, g: TypeEnv)
    requires es != [] && st.tables.Valid()
    requires var fa1 := if isOp then before else fa;
             && Annotated(cx, es[0], st, fa1, g)
             && var (r, st1) := Annotate(cx, es[0], st, fa1);
                && (r.v.a.AOperator? <==> MeansOperator(cx, es[0], g))
                && ElemsAnnotated(cx, es[1..], st1, fa, if before == [] then r.v.a.AOperator? else isOp,
                                  before + [TypedArg(r.v.t, es[0])], g)
    ensures ElemsAnnotated(cx, es, st, fa, isOp, before, g)
  {
    var (r, st1) := Annotate(cx, es[0], st, if isOp then before else fa);
    var isOp', before' := if before == [] then r.v.a.AOperator? else isOp, before + [TypedArg(r.v.t, es[0])];
    PairsCons(r.v, AnnotateElems(cx, es[1..], st1, fa, isOp', before').0.v, es);
  }

  /** One element: an operator at the head, or accepted. */
  lemma {:induction false} ElemIsAccepted(cx: Context, e: Expr, st: State, fa: seq<TypedArg>, g: TypeEnv, d: Scope,
                                          seen: set<string>, first: bool)
    requires Start(cx, e, st, g, d, seen)
    requires (first && MeansOperator(cx, e, g)) || WellTyped(cx, e, g, fa, st.tables.names.Keys)
    ensures Annotated(cx, e, st, fa, g)
    ensures Annotate(cx, e, st, fa).0.v.a.AOperator? <==> MeansOperator(cx, e, g)
    decreases e, 3
  {
    if !MeansOperator(cx, e, g) { WellTypedIsAccepted(cx, e, st, fa, g, d, seen); }
    AnnotatedOperator(cx, e, st, fa, g, d, seen);
  }

  // ------------------------------------------------------ accepted means well typed

  /** What annotation accepts is well typed; names are those of the binders met so far. */
  lemma {:induction false} AcceptedIsWellTyped(cx: Context, e: Expr, st: State, fa: seq<TypedArg>, g: TypeEnv, d: Scope,
                                               seen: set<string>)
    requires Start(cx, e, st, g, d, seen) && Accepted(cx, Annotate(cx, e, st, fa).0)
    ensures WellTyped(cx, e, g, fa, st.tables.names.Keys)
    decreases e, 1
  {
    TypesAgree(cx, e, st, fa, g, d, seen);
    match e
    case Const(_) =>
    case Sym(_) =>
    case FunObj(_, def) =>
      var none: TypeEnv := map[];
      assert none.Keys == {};
      AcceptedIsWellTyped(cx, def, st.AddValue(ValueEntry(0, false, true)).(tables := EMPTYTABLES), [], none, map[], {});
    case Fun(ps, body) => FunctionIsWellTyped(cx, ps, body, st, fa, g, d, seen);
    case List(es) =>
      if es != [] {
        ListAccepted(cx, es, st, fa, g, d, seen);
        ElemsAreWellTyped(cx, es, st, fa, false, [], g, d, seen);
      }
    case Counter(no, e1) => AcceptedIsWellTyped(cx, e1, st.AddValue(ValueEntry(no, true, false)), fa, g, d, seen);
    case Memory(size, e1) => AcceptedIsWellTyped(cx, e1, st.AddValue(ValueEntry(size, true, false)), fa, g, d, seen);
  }

  lemma {:induction false} FunctionIsWellTyped(cx: Context, ps: seq<Param>, body: Expr, st: State, fa: seq<TypedArg>, g: TypeEnv,
                                               d: Scope, seen: set<string>)
    requires Start(cx, Fun(ps, body), st, g, d, seen) && Accepted(cx, Annotate(cx, Fun(ps, body), st, fa).0)
    ensures ProperParams(cx, ps, fa, st.tables.names.Keys)
    ensures WellTyped(cx, body, Bind(g, ps, ParamTypes(cx, ps, fa)), fa, st.tables.names.Keys + ParamNames(ps))
    decreases body, 2
  {
    var n, ts := st.functionno + 1, ParamTypes(cx, ps, fa);
    FunAccepted(cx, ps, body, st, fa, g, d, seen);
    ParamsEnteredExactly(cx, ps, fa, st.tables, 1, n);
    BodyNames(cx, ps, body, st, fa, g, d, seen);
    AcceptedIsWellTyped(cx, body, BodyState(cx, ps, st, fa), fa, Bind(g, ps, ts), d[n := ts], seen + ParamNames(ps));
  }

  lemma {:induction false} ElemsAreWellTyped(cx: Context, es: seq<Expr>, st: State, fa: seq<TypedArg>, isOp: bool,
                                             before: seq<TypedArg>, g: TypeEnv, d: Scope, seen: set<string>)
    requires StartElems(cx, es, st, g, d, seen)
    requires var r := AnnotateElems(cx, es, st, fa, isOp, before).0;
             r.Done? && ElemsAccepted(cx, r.v, before == [])
    ensures WellTypedElems(cx, es, g, fa, st.tables.names.Keys, isOp, before)
    decreases es, 0
  {
    if es != [] {
      var fa1 := if isOp then before else fa;
      var a, st1, rest, isOp', before' := ElemsCons(cx, es, st, fa, isOp, before);
      StartRest(cx, es, st, fa1, g, d, seen);
      ElemsOfRest(cx, a, rest, before == []);
      HeadTypesAgree(cx, es[0], st, fa1, g, d, seen, before == []);
      if !a.a.AOperator? { AcceptedIsWellTyped(cx, es[0], st, fa1, g, d, seen); }
      assert before != [] && a.a.AOperator? ==> Accepted(cx, Done(a));
      OperatorIsNotAccepted(cx, es[0], st, fa1, g, d, seen);
      ElemIsAccepted(cx, es[0], st, fa1, g, d, seen, before == []);
      ElemsAreWellTyped(cx, es[1..], st1, fa, isOp', before', g, d, seen + Binders(es[0]));
    }
  }

  lemma OperatorIsNotAccepted(cx: Context, e: Expr, st: State, fa: seq<TypedArg>, g: TypeEnv, d: Scope, seen: set<string>)
    requires Start(cx, e, st, g, d, seen) && Annotate(cx, e, st, fa).0.Done?
    ensures var a := Annotate(cx, e, st, fa).0; a.v.a.AOperator? ==> !Accepted(cx, a)
  {
    AnnotatedOperator(cx, e, st, fa, g, d, seen);
  }

  // ------------------------------------------------- functions, counters and sizes

  /** Apart from counters and memory sizes the query is a function. */
  predicate DenotesFunction(e: Expr) {
    match e
    case Fun(_, _) => true
    case FunObj(_, def) => DenotesFunction(def)
    case Counter(_, e1) => DenotesFunction(e1)
    case Memory(_, e1) => DenotesFunction(e1)
    case _ => false
  }

  /** What is computed in the end is an application or a list, not a constant, object or parameter. */
  predicate Computes(e: Expr) {
    match e
    case Fun(_, body) => Computes(body)
    case FunObj(_, def) => Computes(def)
    case List(_) => true
    case Counter(_, e1) => Computes(e1)
    case Memory(_, e1) => Computes(e1)
    case _ => false
  }

  /** The outermost counter on the way to what is computed; 0 if there is none. */
  function CounterNo(e: Expr): int {
    match e
    case Fun(_, body) => CounterNo(body)
    case FunObj(_, def) => CounterNo(def)
    case Counter(no, _) => no
    case Memory(_, e1) => CounterNo(e1)
    case _ => 0
  }

  /** The outermost memory size on the way to what is computed, as a `size_t`; 0 if there is none. */
  function MemorySize(e: Expr): nat {
    match e
    case Fun(_, body) => MemorySize(body)
    case FunObj(_, def) => MemorySize(def)
    case Counter(_, e1) => MemorySize(e1)
    case Memory(size, _) => size % SIZET
    case _ => 0
  }

  /** What the node built for a well-typed query carries. */
  ghost predicate NodeIs(node: OpNode, e: Expr) {
    && node.isFun == DenotesFunction(e) && node.kind.KOperator? == Computes(e)
    && node.counterNo == (if Computes(e) then CounterNo(e) else 0)
    && node.memorySize == (if Computes(e) && node.usesMemory then MemorySize(e) else 0)
  }

  /** Functions, counters and memory sizes reach the node that computes. */
  lemma {:induction false} NodeOfQuery(cx: Context, e: Expr, st: State, fa: seq<TypedArg>, g: TypeEnv, d: Scope,
                                       seen: set<string>, vals: seq<ValueEntry>)
    requires Start(cx, e, st, g, d, seen) && WellTyped(cx, e, g, fa, st.tables.names.Keys)
    ensures var r := Annotate(cx, e, st, fa).0; r.Done? && NodeIs(Subtree(cx, r.v, vals), e)
    decreases e
  {
    WellTypedIsAccepted(cx, e, st, fa, g, d, seen);
    match e
    case Const(_) =>
    case Sym(_) => NodeOfSymbol(cx, e, st, fa, g, d, seen, vals);
    case FunObj(_, def) =>
      var none: TypeEnv := map[];
      assert none.Keys == {};
      NodeOfQuery(cx, def, st.AddValue(ValueEntry(0, false, true)).(tables := EMPTYTABLES), [], none, map[], {}, vals);
    case Fun(ps, body) =>
      BodyStarts(cx, ps, body, st, fa, g, d, seen);
      var n, ts := st.functionno + 1, ParamTypes(cx, ps, fa);
      NodeOfQuery(cx, body, BodyState(cx, ps, st, fa), fa, Bind(g, ps, ts), d[n := ts], seen + ParamNames(ps), vals);
      NodeOfFunction(cx, ps, body, st, fa, vals);
    case List(es) => NodeOfList(cx, es, st, fa, vals);
    case Counter(no, e1) => NodeOfQuery(cx, e1, st.AddValue(ValueEntry(no, true, false)), fa, g, d, seen, vals);
    case Memory(size, e1) => NodeOfQuery(cx, e1, st.AddValue(ValueEntry(size, true, false)), fa, g, d, seen, vals);
  }

  lemma NodeOfFunction(cx: Context, ps: seq<Param>, body: Expr, st: State, fa: seq<TypedArg>, vals: seq<ValueEntry>)
    requires st.tables.Valid() && EnterParams(cx, ps, fa, st.tables, 1, st.functionno + 1).Done?
    requires var r := Annotate(cx, body, BodyState(cx, ps, st, fa), fa).0; r.Done? && NodeIs(Subtree(cx, r.v, vals), body)
    ensures var r := Annotate(cx, Fun(ps, body), st, fa).0; r.Done? && NodeIs(Subtree(cx, r.v, vals), Fun(ps, body))
  {
    FunctionUnfolds(cx, ps, body, st, fa);
  }

  lemma NodeOfSymbol(cx: Context, e: Expr, st: State, fa: seq<TypedArg>, g: TypeEnv, d: Scope, seen: set<string>,
                     vals: seq<ValueEntry>)
    requires e.Sym? && Start(cx, e, st, g, d, seen) && WellTyped(cx, e, g, fa, st.tables.names.Keys)
    ensures var r := Annotate(cx, e, st, fa).0; r.Done? && NodeIs(Subtree(cx, r.v, vals), e)
  {
    WellTypedIsAccepted(cx, e, st, fa, g, d, seen);
  }

  lemma NodeOfList(cx: Context, es: seq<Expr>, st: State, fa: seq<TypedArg>, vals: seq<ValueEntry>)
    requires st.tables.Valid() && Annotate(cx, List(es), st, fa).0.Done?
    ensures NodeIs(Subtree(cx, Annotate(cx, List(es), st, fa).0.v, vals), List(es))
  {
    if es != [] { var (r, st1) := AnnotateElems(cx, es, st, fa, false, []); }
  }

  // ------------------------------------------------------------------ whole queries

  const BEGINNING := State([], 0, EMPTYTABLES, true)

  /**
   A whole query is accepted exactly if it is well typed; then its type is the lexical one, and
   it is undefined exactly if some object it names is.
   */
  lemma {:induction false} AcceptedExactly(cx: Context, e: Expr)
    requires ContextOk(cx) && WellFormed(cx, e) && Scoped(cx, e, {}, {})
    requires var r := Annotate(cx, e, BEGINNING, []).0; r.Done? ==> Sound(cx, r.v)
    ensures var (r, st) := Annotate(cx, e, BEGINNING, []);
            && (r.Done? && Clean(r.v.t) <==> WellTyped(cx, e, map[], [], {}))
            && (WellTyped(cx, e, map[], [], {}) ==>
                  r.v.t == TypeOf(cx, e, map[], []) && st.isDefined == Defined(cx, ObjectsIn(cx, e)))
  {
    var none: TypeEnv := map[];
    assert none.Keys == {} && EMPTYTABLES.names.Keys == {};
    if WellTyped(cx, e, none, [], {}) {
      WellTypedIsAccepted(cx, e, BEGINNING, [], none, map[], {});
    } else if Accepted(cx, Annotate(cx, e, BEGINNING, []).0) {
      AcceptedIsWellTyped(cx, e, BEGINNING, [], none, map[], {});
    }
  }
}
