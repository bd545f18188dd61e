/**
 The table of values of a query. When the query ends, its entries for constants are deleted and
 its entries for objects are closed; so a wrong mark would delete an object or leave a constant
 behind. Read off the query: the constants are those written in it and those its operators
 append, the objects those it names, each as often as it occurs and in this order.
 */
module QueryValues {
  import opened QueryTerms
  import opened Annotation
  import opened OperatorTree
  import opened Semantics
  import opened TypedTrees
  import opened CompilerTypes
  import opened QueryAcceptance

  /** The values marked as constants, or those of objects; entries for lists count as neither. */
  function Marked(vals: seq<ValueEntry>, constant: bool): seq<Word> {
    if vals == [] then []
    else
      var v := vals[|vals| - 1];
      Marked(vals[..|vals| - 1], constant) + if !v.isList && v.isConstant == constant then [v.value] else []
  }

  lemma MarkedSnoc(vals: seq<ValueEntry>, v: ValueEntry, constant: bool)
    ensures Marked(vals + [v], constant)
         == Marked(vals, constant) + if !v.isList && v.isConstant == constant then [v.value] else []
  {
    assert (vals + [v])[..|vals|] == vals;
  }

  /** The values of those constants an In function accepts. */
  function Taken(cs: seq<Constant>): seq<Word> {
    if cs == [] then [] else (if cs[0].ok then [cs[0].w] else []) + Taken(cs[1..])
  }

  /** The constants of a query, or its objects. */
  function WordsIn(cx: Context, e: Expr, g: TypeEnv, fa: seq<TypedArg>, constant: bool): seq<Word>
    decreases e, 1
  {
    match e
    case Const(c) => if constant then [c.w] else []
    case Sym(x) => if !constant && x in cx.cat.objects then [cx.cat.objects[x].w] else []
    case FunObj(_, def) => WordsIn(cx, def, map[], [], constant)
    case Fun(ps, body) => WordsIn(cx, body, Bind(g, ps, ParamTypes(cx, ps, fa)), fa, constant)
    case List(es) => WordsInAll(cx, es, g, fa, false, [], constant) + if constant then Appended(cx, es, g, fa) else []
    case Counter(no, e1) => (if constant then [no] else []) + WordsIn(cx, e1, g, fa, constant)
    case Memory(size, e1) => (if constant then [size] else []) + WordsIn(cx, e1, g, fa, constant)
  }

  function WordsInAll(cx: Context, es: seq<Expr>, g: TypeEnv, fa: seq<TypedArg>, isOp: bool, before: seq<TypedArg>,
                      constant: bool): seq<Word>
    decreases es, 0
  {
    if es == [] then []
    else
      var fa1 := if isOp then before else fa;
      WordsIn(cx, es[0], g, fa1, constant)
        + WordsInAll(cx, es[1..], g, fa, if before == [] then MeansOperator(cx, es[0], g) else isOp,
                     before + [TypedArg(TypeOf(cx, es[0], g, fa1), es[0])], constant)
  }

  /** What the operator of a list appends to its arguments. */
  function Appended(cx: Context, es: seq<Expr>, g: TypeEnv, fa: seq<TypedArg>): seq<Word> {
    if es != [] && MeansOperator(cx, es[0], g) && cx.cat.operators[es[0].name] != [] then
      var ps := TypedElems(cx, es, g, fa, false, []);
      Taken(Extra(Resolve(cx, cx.cat.operators[es[0].name], ps[1..], true).result))
    else []
  }

  ghost predicate Grown(st: State, st': State, constant: bool, ws: seq<Word>) {
    Marked(st'.values, constant) == Marked(st.values, constant) + ws
  }

  lemma GrownFurther(st: State, st1: State, st2: State, constant: bool, ws1: seq<Word>, ws2: seq<Word>)
    requires Grown(st, st1, constant, ws1) && Grown(st1, st2, constant, ws2)
    ensures Grown(st, st2, constant, ws1 + ws2)
  {}

  lemma ValueAdded(st: State, v: ValueEntry, constant: bool)
    ensures Grown(st, st.AddValue(v), constant, if !v.isList && v.isConstant == constant then [v.value] else [])
  {
    MarkedSnoc(st.values, v, constant);
  }

  lemma {:induction false} ConstantsAdded(cs: seq<Constant>, st: State, constant: bool)
    ensures Grown(st, AnnotateConsts(cs, st).1, constant, if constant then Taken(cs) else [])
    decreases |cs|
  {
    if cs != [] {
      var st1 := AnnotateConst(cs[0], st).1;
      ConstantsAdded(cs[1..], st1, constant);
      ValueAdded(st, ValueEntry(cs[0].w, true, false), constant);
      GrownFurther(st, st1, AnnotateConsts(cs, st).1, constant, if constant && cs[0].ok then [cs[0].w] else [],
                   if constant then Taken(cs[1..]) else []);
    }
  }

  /** Annotation of a well-typed query enters its constants as constants and its objects as objects. */
  lemma {:induction false} ValuesOfQuery(cx: Context, e: Expr, st: State, fa: seq<TypedArg>, g: TypeEnv, d: Scope,
                                         seen: set<string>, constant: bool)
    requires Start(cx, e, st, g, d, seen) && WellTyped(cx, e, g, fa, st.tables.names.Keys)
    ensures Grown(st, Annotate(cx, e, st, fa).1, constant, WordsIn(cx, e, g, fa, constant))
    decreases e, 1
  {
    match e
    case Const(c) => ValueAdded(st, ValueEntry(c.w, true, false), constant);
    case Sym(x) => ValuesOfSymbol(cx, x, st, fa, g, constant);
    case FunObj(name, def) => ValuesOfStored(cx, name, def, st, fa, g, d, seen, constant);
    case Fun(ps, body) => ValuesOfFunction(cx, ps, body, st, fa, g, d, seen, constant);
    case List(es) =>
      if es != [] { ValuesOfList(cx, es, st, fa, g, d, seen, constant); }
    case Counter(no, e1) => ValuesOfWrapped(cx, e, no, st, fa, g, d, seen, constant);
    case Memory(size, e1) => ValuesOfWrapped(cx, e, size, st, fa, g, d, seen, constant);
  }

  lemma {:induction false} ValuesOfStored(cx: Context, name: string, def: Expr, st: State, fa: seq<TypedArg>, g: TypeEnv,
                                          d: Scope, seen: set<string>, constant: bool)
    requires Start(cx, FunObj(name, def), st, g, d, seen) && WellTyped(cx, FunObj(name, def), g, fa, st.tables.names.Keys)
    ensures Grown(st, Annotate(cx, FunObj(name, def), st, fa).1, constant, WordsIn(cx, FunObj(name, def), g, fa, constant))
    decreases def, 2
  {
    var st1 := st.AddValue(ValueEntry(0, false, true)).(tables := EMPTYTABLES);
    StoredStarts(cx, name, def, st1, st, fa, g, d, seen);
    ValueAdded(st, ValueEntry(0, false, true), constant);
    ValuesOfQuery(cx, def, st1, [], map[], map[], {}, constant);
    assert Annotate(cx, FunObj(name, def), st, fa).1.values == Annotate(cx, def, st1, []).1.values;
    assert Marked(st1.values, constant) == Marked(st.values, constant);
  }

  lemma StoredStarts(cx: Context, name: string, def: Expr, st1: State, st: State, fa: seq<TypedArg>, g: TypeEnv, d: Scope,
                     seen: set<string>)
    requires Start(cx, FunObj(name, def), st, g, d, seen) && WellTyped(cx, FunObj(name, def), g, fa, st.tables.names.Keys)
    requires st1.tables == EMPTYTABLES
    ensures Start(cx, def, st1, map[], map[], {}) && WellTyped(cx, def, map[], [], st1.tables.names.Keys)
  {
    var none: TypeEnv := map[];
    assert none.Keys == {} && EMPTYTABLES.names.Keys == {};
  }

  lemma {:induction false} ValuesOfFunction(cx: Context, ps: seq<Param>, body: Expr, st: State, fa: seq<TypedArg>, g: TypeEnv,
                                            d: Scope, seen: set<string>, constant: bool)
    requires Start(cx, Fun(ps, body), st, g, d, seen) && WellTyped(cx, Fun(ps, body), g, fa, st.tables.names.Keys)
    ensures Grown(st, Annotate(cx, Fun(ps, body), st, fa).1, constant, WordsIn(cx, Fun(ps, body), g, fa, constant))
    decreases body, 2
  {
    BodyStarts(cx, ps, body, st, fa, g, d, seen);
    var n, ts := st.functionno + 1, ParamTypes(cx, ps, fa);
    ValuesOfQuery(cx, body, BodyState(cx, ps, st, fa), fa, Bind(g, ps, ts), d[n := ts], seen + ParamNames(ps), constant);
    FunctionUnfolds(cx, ps, body, st, fa);
  }

  lemma ValuesOfSymbol(cx: Context, x: string, st: State, fa: seq<TypedArg>, g: TypeEnv, constant: bool)
    requires st.tables.Valid()
    ensures Grown(st, Annotate(cx, Sym(x), st, fa).1, constant, WordsIn(cx, Sym(x), g, fa, constant))
  {
    if x in cx.cat.objects { ValueAdded(st, ValueEntry(cx.cat.objects[x].w, false, false), constant); }
  }

  lemma {:induction false} ValuesOfWrapped(cx: Context, e: Expr, k: int, st: State, fa: seq<TypedArg>, g: TypeEnv, d: Scope,
                                           seen: set<string>, constant: bool)
    requires (e.Counter? && k == e.no) || (e.Memory? && k == e.size)
    requires Start(cx, e, st, g, d, seen) && WellTyped(cx, e, g, fa, st.tables.names.Keys)
    ensures Grown(st, Annotate(cx, e, st, fa).1, constant, WordsIn(cx, e, g, fa, constant))
    decreases e, 0
  {
    var st1 := st.AddValue(ValueEntry(k, true, false));
    ValueAdded(st, ValueEntry(k, true, false), constant);
    ValuesOfQuery(cx, e.e, st1, fa, g, d, seen, constant);
    GrownFurther(st, st1, Annotate(cx, e.e, st1, fa).1, constant, if constant then [k] else [], WordsIn(cx, e.e, g, fa, constant));
  }

  lemma {:induction false} ValuesOfElems(cx: Context, es: seq<Expr>, st: State, fa: seq<TypedArg>, isOp: bool,
                                         before: seq<TypedArg>, g: TypeEnv, d: Scope, seen: set<string>, constant: bool)
    requires StartElems(cx, es, st, g, d, seen)
    requires WellTypedElems(cx, es, g, fa, st.tables.names.Keys, isOp, before)
    ensures Grown(st, AnnotateElems(cx, es, st, fa, isOp, before).1, constant,
                  WordsInAll(cx, es, g, fa, isOp, before, constant))
    decreases es, 0
  {
    if es != [] {
      var fa1 := if isOp then before else fa;
      StartRest(cx, es, st, fa1, g, d, seen);
      ElemIsAccepted(cx, es[0], st, fa1, g, d, seen, before == []);
      var (r, st1) := Annotate(cx, es[0], st, fa1);
      var isOp' := if before == [] then r.v.a.AOperator? else isOp;
      var before' := before + [TypedArg(r.v.t, es[0])];
      ValuesOfElem(cx, es[0], st, fa1, g, d, seen, before == [], constant);
      ElemsAreAccepted(cx, es[1..], st1, fa, isOp', before', g, d, seen + Binders(es[0]));
      ValuesOfElems(cx, es[1..], st1, fa, isOp', before', g, d, seen + Binders(es[0]), constant);
      GrownFurther(st, st1, AnnotateElems(cx, es[1..], st1, fa, isOp', before').1, constant,
                   WordsIn(cx, es[0], g, fa1, constant), WordsInAll(cx, es[1..], g, fa, isOp', before', constant));
    }
  }

  lemma {:induction false} ValuesOfElem(cx: Context, e: Expr, st: State, fa: seq<TypedArg>, g: TypeEnv, d: Scope,
                                        seen: set<string>, first: bool, constant: bool)
    requires Start(cx, e, st, g, d, seen)
    requires (first && MeansOperator(cx, e, g)) || WellTyped(cx, e, g, fa, st.tables.names.Keys)
    ensures Grown(st, Annotate(cx, e, st, fa).1, constant, WordsIn(cx, e, g, fa, constant))
    decreases e, 3
  {
    if MeansOperator(cx, e, g) {
      ValuesOfSymbol(cx, e.name, st, fa, g, constant);
    } else {
      ValuesOfQuery(cx, e, st, fa, g, d, seen, constant);
    }
  }

  /** What the elements of a well-typed list are annotated as. */
  lemma {:induction false} ListParts(cx: Context, es: seq<Expr>, st: State, fa: seq<TypedArg>, g: TypeEnv, d: Scope, seen: set<string>)
    requires es != [] && Start(cx, List(es), st, g, d, seen) && WellTyped(cx, List(es), g, fa, st.tables.names.Keys)
    ensures var r := AnnotateElems(cx, es, st, fa, false, []).0;
            && r.Done? && (r.v[0].a.AOperator? <==> MeansOperator(cx, es[0], g))
            && (r.v[0].a.AOperator? ==> r.v[0].a.cands == cx.cat.operators[es[0].name])
            && Pairs(r.v[1..], es[1..]) == TypedElems(cx, es, g, fa, false, [])[1..]
  {
    ElemsStart(cx, es, st, fa, g, d, seen);
    ElemsAreAccepted(cx, es, st, fa, false, [], g, d, seen);
    var r := AnnotateElems(cx, es, st, fa, false, []).0;
    var ps := TypedElems(cx, es, g, fa, false, []);
    assert r.v[0].t == TypeOf(cx, es[0], g, fa) by { assert Pairs(r.v, es)[0] == ps[0]; }
    HeadIs(cx, es, st, fa, g, d, seen);
    assert Pairs(r.v[1..], es[1..]) == ps[1..];
  }

  /** Putting the list together enters what its operator appends. */
  lemma {:induction false} ValuesOfList(cx: Context, es: seq<Expr>, st: State, fa: seq<TypedArg>, g: TypeEnv, d: Scope,
                                        seen: set<string>, constant: bool)
    requires es != [] && Start(cx, List(es), st, g, d, seen) && WellTyped(cx, List(es), g, fa, st.tables.names.Keys)
    ensures Grown(st, Annotate(cx, List(es), st, fa).1, constant, WordsIn(cx, List(es), g, fa, constant))
    decreases es, 2
  {
    ElemsStart(cx, es, st, fa, g, d, seen);
    ValuesOfElems(cx, es, st, fa, false, [], g, d, seen, constant);
    ListParts(cx, es, st, fa, g, d, seen);
    var (r, st1) := AnnotateElems(cx, es, st, fa, false, []);
    CombinedValues(cx, es, r.v, st1, constant);
    GrownFurther(st, st1, Combine(cx, es, r.v, st1).1, constant, WordsInAll(cx, es, g, fa, false, [], constant),
                 if constant then Appended(cx, es, g, fa) else []);
  }

  lemma CombinedValues(cx: Context, es: seq<Expr>, anns: seq<TAnn>, st: State, constant: bool)
    requires |anns| == |es| > 0
    ensures var extra := if anns[0].a.AOperator? && anns[0].a.cands != []
                         then Taken(Extra(Resolve(cx, anns[0].a.cands, Pairs(anns[1..], es[1..]), true).result)) else [];
            Grown(st, Combine(cx, es, anns, st).1, constant, if constant then extra else [])
  {
    if anns[0].a.AOperator? && anns[0].a.cands != [] {
      ConstantsAdded(Extra(Resolve(cx, anns[0].a.cands, Pairs(anns[1..], es[1..]), true).result), st, constant);
    }
  }

  // ---------------------------------------------------------------------- memory

  /** What is computed is an application of an operator that uses memory. */
  predicate UsesMemory(cx: Context, e: Expr, g: TypeEnv, fa: seq<TypedArg>) {
    match e
    case Fun(ps, body) => UsesMemory(cx, body, Bind(g, ps, ParamTypes(cx, ps, fa)), fa)
    case FunObj(_, def) => UsesMemory(cx, def, map[], [])
    case List(es) =>
      && es != [] && MeansOperator(cx, es[0], g) && cx.cat.operators[es[0].name] != []
      && var ps := TypedElems(cx, es, g, fa, false, []);
         cx.alg.usesMemory(Resolve(cx, cx.cat.operators[es[0].name], ps[1..], true).key)
    case Counter(_, e1) => UsesMemory(cx, e1, g, fa)
    case Memory(_, e1) => UsesMemory(cx, e1, g, fa)
    case _ => false
  }

  lemma WrappedStarts(cx: Context, e: Expr, v: ValueEntry, st: State, fa: seq<TypedArg>, g: TypeEnv, d: Scope, seen: set<string>)
    requires e.Counter? || e.Memory?
    requires Start(cx, e, st, g, d, seen) && WellTyped(cx, e, g, fa, st.tables.names.Keys)
    ensures Start(cx, e.e, st.AddValue(v), g, d, seen) && WellTyped(cx, e.e, g, fa, st.tables.names.Keys)
  {}

  /** The node built for what annotation makes of an expression. */
  ghost predicate MarkedForMemory(cx: Context, r: Outcome<TAnn>, vals: seq<ValueEntry>, uses: bool) {
    r.Done? && Subtree(cx, r.v, vals).usesMemory == uses
  }

  /** Exactly the nodes of operators that use memory are marked for it. */
  lemma {:induction false} MemoryOfQuery(cx: Context, e: Expr, st: State, fa: seq<TypedArg>, g: TypeEnv, d: Scope,
                                         seen: set<string>, vals: seq<ValueEntry>)
    requires Start(cx, e, st, g, d, seen) && WellTyped(cx, e, g, fa, st.tables.names.Keys)
    ensures MarkedForMemory(cx, Annotate(cx, e, st, fa).0, vals, UsesMemory(cx, e, g, fa))
    decreases e, 0
  {
    match e
    case FunObj(name, def) => MemoryOfStored(cx, name, def, st, fa, g, d, seen, vals);
    case Fun(ps, body) => MemoryOfFunction(cx, ps, body, st, fa, g, d, seen, vals);
    case List(es) =>
      if es != [] { MemoryOfList(cx, es, st, fa, g, d, seen, vals); }
    case Counter(no, _) => MemoryOfWrapped(cx, e, no, st, fa, g, d, seen, vals);
    case Memory(size, _) => MemoryOfWrapped(cx, e, size, st, fa, g, d, seen, vals);
    case _ => WellTypedIsAccepted(cx, e, st, fa, g, d, seen);
  }

  lemma {:induction false} MemoryOfWrapped(cx: Context, e: Expr, k: int, st: State, fa: seq<TypedArg>, g: TypeEnv, d: Scope,
                                           seen: set<string>, vals: seq<ValueEntry>)
    requires (e.Counter? && k == e.no) || (e.Memory? && k == e.size)
    requires Start(cx, e, st, g, d, seen) && WellTyped(cx, e, g, fa, st.tables.names.Keys)
    ensures MarkedForMemory(cx, Annotate(cx, e, st, fa).0, vals, UsesMemory(cx, e.e, g, fa))
    decreases e.e, 1
  {
    var v := ValueEntry(k, true, false);
    WrappedStarts(cx, e, v, st, fa, g, d, seen);
    MemoryOfQuery(cx, e.e, st.AddValue(v), fa, g, d, seen, vals);
  }

  lemma {:induction false} MemoryOfStored(cx: Context, name: string, def: Expr, st: State, fa: seq<TypedArg>, g: TypeEnv,
                                          d: Scope, seen: set<string>, vals: seq<ValueEntry>)
    requires Start(cx, FunObj(name, def), st, g, d, seen) && WellTyped(cx, FunObj(name, def), g, fa, st.tables.names.Keys)
    ensures MarkedForMemory(cx, Annotate(cx, FunObj(name, def), st, fa).0, vals, UsesMemory(cx, FunObj(name, def), g, fa))
    decreases def, 1
  {
    var st1 := st.AddValue(ValueEntry(0, false, true)).(tables := EMPTYTABLES);
    StoredStarts(cx, name, def, st1, st, fa, g, d, seen);
    MemoryOfQuery(cx, def, st1, [], map[], map[], {}, vals);
    assert Annotate(cx, FunObj(name, def), st, fa).0 == Annotate(cx, def, st1, []).0;
  }

  lemma {:induction false} MemoryOfFunction(cx: Context, ps: seq<Param>, body: Expr, st: State, fa: seq<TypedArg>, g: TypeEnv,
                                            d: Scope, seen: set<string>, vals: seq<ValueEntry>)
    requires Start(cx, Fun(ps, body), st, g, d, seen) && WellTyped(cx, Fun(ps, body), g, fa, st.tables.names.Keys)
    ensures MarkedForMemory(cx, Annotate(cx, Fun(ps, body), st, fa).0, vals, UsesMemory(cx, Fun(ps, body), g, fa))
    decreases body, 1
  {
    BodyStarts(cx, ps, body, st, fa, g, d, seen);
    var n, ts := st.functionno + 1, ParamTypes(cx, ps, fa);
    MemoryOfQuery(cx, body, BodyState(cx, ps, st, fa), fa, Bind(g, ps, ts), d[n := ts], seen + ParamNames(ps), vals);
    ClosedMemory(cx, ps, body, st, fa, vals, UsesMemory(cx, body, Bind(g, ps, ts), fa));
  }

  lemma ClosedMemory(cx: Context, ps: seq<Param>, body: Expr, st: State, fa: seq<TypedArg>, vals: seq<ValueEntry>, uses: bool)
    requires st.tables.Valid() && EnterParams(cx, ps, fa, st.tables, 1, st.functionno + 1).Done?
    requires MarkedForMemory(cx, Annotate(cx, body, BodyState(cx, ps, st, fa), fa).0, vals, uses)
    ensures MarkedForMemory(cx, Annotate(cx, Fun(ps, body), st, fa).0, vals, uses)
  {
    FunctionUnfolds(cx, ps, body, st, fa);
  }

  lemma {:induction false} MemoryOfList(cx: Context, es: seq<Expr>, st: State, fa: seq<TypedArg>, g: TypeEnv, d: Scope,
                                        seen: set<string>, vals: seq<ValueEntry>)
    requires es != [] && Start(cx, List(es), st, g, d, seen) && WellTyped(cx, List(es), g, fa, st.tables.names.Keys)
    ensures MarkedForMemory(cx, Annotate(cx, List(es), st, fa).0, vals, UsesMemory(cx, List(es), g, fa))
  {
    WellTypedIsAccepted(cx, List(es), st, fa, g, d, seen);
    ListParts(cx, es, st, fa, g, d, seen);
    var (r, st1) := AnnotateElems(cx, es, st, fa, false, []);
    CombinedMemory(cx, es, r.v, st1, vals);
    if MeansOperator(cx, es[0], g) && cx.cat.operators[es[0].name] != [] { OperatorKey(cx, es, g, fa); }
  }

  lemma CombinedMemory(cx: Context, es: seq<Expr>, anns: seq<TAnn>, st: State, vals: seq<ValueEntry>)
    requires |anns| == |es| > 0 && Combine(cx, es, anns, st).0.Done?
    ensures var uses := && anns[0].a.AOperator? && anns[0].a.cands != []
                        && var r := Resolve(cx, anns[0].a.cands, Pairs(anns[1..], es[1..]), true);
                           cx.alg.usesMemory(OpKey(r.key.alg, r.opFunId % OPBASE));
            MarkedForMemory(cx, Combine(cx, es, anns, st).0, vals, uses)
  {}

  /** The operator of a list with a clean type is told from the packed number. */
  lemma OperatorKey(cx: Context, es: seq<Expr>, g: TypeEnv, fa: seq<TypedArg>)
    requires ContextOk(cx) && es != [] && MeansOperator(cx, es[0], g) && cx.cat.operators[es[0].name] != []
    requires Clean(TypeOf(cx, List(es), g, fa))
    ensures var r := Resolve(cx, cx.cat.operators[es[0].name], TypedElems(cx, es, g, fa, false, [])[1..], true);
            OpKey(r.key.alg, r.opFunId % OPBASE) == r.key
  {
    var cands, ps := cx.cat.operators[es[0].name], TypedElems(cx, es, g, fa, false, [])[1..];
    var r := Resolve(cx, cands, ps, true);
    assert TypeOf(cx, List(es), g, fa) == ResultType(r.result);
    ResolveAccepted(cx, cands, ps);
    Unpack(cx.alg.select(r.key, Types(ps)), r.key.op);
  }
}
