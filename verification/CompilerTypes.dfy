/**
 The first half of compiler correctness: on lexically scoped queries the global tables, whose
 names are never removed, give every symbol the meaning lexical scoping gives it, so the
 types annotation finds are the types of the direct semantics.
 */
module CompilerTypes {
  import opened QueryTerms
  import opened Annotation
  import opened AnnotationState
  import opened OperatorTree
  import opened Semantics
  import opened TypedTrees

  /** The tables describe at least the visible parameters, whose functions are those of `d`. */
  ghost predicate Match(tb: Tables, g: TypeEnv, d: Scope, functionno: nat) {
    && tb.Valid()
    && (forall f | f in d :: 1 <= f <= functionno)
    && forall x | x in g ::
         && x in tb.names
         && var v := tb.GetVariable(x);
            && v.funindex in d && 1 <= v.position <= |d[v.funindex]|
            && d[v.funindex][v.position - 1] == v.typeexpr == g[x]
  }

  /** The slots the tables point to hold the values of the visible parameters. */
  ghost predicate Agree(tb: Tables, g: TypeEnv, env: ValueEnv, v: Vectors) {
    && tb.Valid() && env.Keys == g.Keys
    && forall x | x in g ::
         x in tb.names && env[x] == Slot(v, tb.GetVariable(x).funindex, tb.GetVariable(x).position)
  }

  lemma MatchGrows(tb: Tables, tb': Tables, g: TypeEnv, d: Scope, n: nat, n': nat)
    requires Match(tb, g, d, n) && TablesGrow(tb, tb') && tb'.Valid() && n <= n'
    ensures Match(tb', g, d, n')
  {
    forall x | x in g ensures tb'.GetVariable(x) == tb.GetVariable(x) {}
  }

  lemma AgreeGrows(tb: Tables, tb': Tables, g: TypeEnv, env: ValueEnv, v: Vectors)
    requires Agree(tb, g, env, v) && TablesGrow(tb, tb') && tb'.Valid()
    ensures Agree(tb', g, env, v)
  {
    forall x | x in g ensures tb'.GetVariable(x) == tb.GetVariable(x) {}
  }

  /** Entering the parameters of function `f` makes the tables describe its body. */
  lemma {:induction false} EnterMatches(cx: Context, ps: seq<Param>, fa: seq<TypedArg>, tb: Tables,
                                        position: nat, f: nat, g: TypeEnv, d: Scope)
    requires Match(tb, g, d, f) && f in d && position >= 1
    requires EnterParams(cx, ps, fa, tb, position, f).Done?
    requires |d[f]| == position - 1 + |ps|
    requires forall i | 0 <= i < |ps| :: d[f][position - 1 + i] == ParamTypes(cx, ps, fa)[i]
    ensures Match(EnterParams(cx, ps, fa, tb, position, f).v, Bind(g, ps, ParamTypes(cx, ps, fa)), d, f)
    ensures EnterParams(cx, ps, fa, tb, position, f).v.names.Keys == tb.names.Keys + ParamNames(ps)
    decreases |ps|
  {
    if ps != [] {
      var t := ParamType(cx, ps[0].ptype, fa);
      var tb1 := tb.EnterVariable(ps[0].name, VarEntry(position, f, t));
      var ts := ParamTypes(cx, ps, fa);
      assert ts[1..] == ParamTypes(cx, ps[1..], fa);
      assert d[f][position - 1 + 0] == ts[0];
      EnterOneMatches(tb, ps[0].name, t, position, f, g, d);
      forall i | 0 <= i < |ps[1..]| ensures d[f][position + i] == ParamTypes(cx, ps[1..], fa)[i] {
        assert d[f][position - 1 + (i + 1)] == ts[i + 1];
      }
      EnterMatches(cx, ps[1..], fa, tb1, position + 1, f, g[ps[0].name := t], d);
      NamesOfRest(ps);
    }
  }

  lemma EnterOneMatches(tb: Tables, x: string, t: Type, position: nat, f: nat, g: TypeEnv, d: Scope)
    requires Match(tb, g, d, f) && f in d && 1 <= position <= |d[f]| && d[f][position - 1] == t
    ensures Match(tb.EnterVariable(x, VarEntry(position, f, t)), g[x := t], d, f)
  {
    var tb1 := tb.EnterVariable(x, VarEntry(position, f, t));
    forall y | y in g && y != x ensures tb1.GetVariable(y) == tb.GetVariable(y) {}
  }

  /** Loading the arguments makes the slots agree with the environment of the body. */
  lemma {:induction false} EnterAgrees(cx: Context, ps: seq<Param>, fa: seq<TypedArg>, tb: Tables,
                                       position: nat, f: nat, g: TypeEnv, env: ValueEnv, v: Vectors, ws: seq<Word>)
    requires Agree(tb, g, env, v) && position >= 1 && |ws| == |ps|
    requires EnterParams(cx, ps, fa, tb, position, f).Done?
    requires forall i | 0 <= i < |ps| :: Slot(v, f, position + i) == ws[i]
    ensures Agree(EnterParams(cx, ps, fa, tb, position, f).v, Bind(g, ps, ParamTypes(cx, ps, fa)), Bind(env, ps, ws), v)
    decreases |ps|
  {
    if ps != [] {
      var t := ParamType(cx, ps[0].ptype, fa);
      var tb1 := tb.EnterVariable(ps[0].name, VarEntry(position, f, t));
      assert ParamTypes(cx, ps, fa)[1..] == ParamTypes(cx, ps[1..], fa);
      assert Agree(tb1, g[ps[0].name := t], env[ps[0].name := ws[0]], v) by {
        assert Slot(v, f, position + 0) == ws[0];
        forall x | x in g && x != ps[0].name ensures tb1.GetVariable(x) == tb.GetVariable(x) {}
      }
      forall i | 0 <= i < |ps[1..]| ensures Slot(v, f, position + 1 + i) == ws[1..][i] {
        assert Slot(v, f, position + (i + 1)) == ws[i + 1];
      }
      EnterAgrees(cx, ps[1..], fa, tb1, position + 1, f, g[ps[0].name := t], env[ps[0].name := ws[0]], v, ws[1..]);
    }
  }

  // ---------------------------------------------------------- annotated queries

  /**
   No parameter stands for a function, functions are applied to words and yield words, and each
   operator applied to get a word yields one of its type from what its arguments are.
   */
  ghost predicate Sound(cx: Context, a: TAnn)
    decreases a
  {
    match a.a
    case AVariable(_, _, _) => !IsMap(a.t)
    case AApplyOp(alg, opFunId, args) =>
      && (IsValueType(cx, a.t) ==> SignatureOk(cx, OpKey(alg, opFunId % OPBASE), opFunId / OPBASE, AnnTypes(args), a.t))
      && forall i | 0 <= i < |args| :: Sound(cx, args[i])
    case AAbstraction(body, _) => Sound(cx, body)
    case AApplyAbs(f, args) =>
      Callable(cx, f.t) && Sound(cx, f) && forall i | 0 <= i < |args| :: Sound(cx, args[i])
    case AArgList(elems) => forall i | 0 <= i < |elems| :: Sound(cx, elems[i])
    case ACounterDef(_, e) => Sound(cx, e)
    case AMemoryDef(_, e) => Sound(cx, e)
    case _ => true
  }

  /** Annotation ended without a type error, and the result is sound. */
  ghost predicate Accepted(cx: Context, r: Outcome<TAnn>) {
    r.Done? && Clean(r.v.t) && Sound(cx, r.v)
  }

  /** No parameter in scope has the name of an operator or object; their types are accepted ones. */
  ghost predicate PlainNames(cx: Context, g: TypeEnv) {
    forall x | x in g :: x !in cx.cat.objects && x !in cx.cat.operators && ParamTypeOk(cx, g[x])
  }

  lemma {:induction false} EnterPlain(cx: Context, ps: seq<Param>, fa: seq<TypedArg>, tb: Tables, position: nat, f: nat)
    requires EnterParams(cx, ps, fa, tb, position, f).Done?
    ensures forall i | 0 <= i < |ps| :: ps[i].name !in cx.cat.operators && ParamTypeOk(cx, ParamTypes(cx, ps, fa)[i])
    decreases |ps|
  {
    if ps != [] {
      var t := ParamType(cx, ps[0].ptype, fa);
      EnterPlain(cx, ps[1..], fa, tb.EnterVariable(ps[0].name, VarEntry(position, f, t)), position + 1, f);
      forall i | 0 <= i < |ps|
        ensures ps[i].name !in cx.cat.operators && ParamTypeOk(cx, ParamTypes(cx, ps, fa)[i])
      {
        if i > 0 { assert ps[1..][i - 1] == ps[i]; assert ParamTypes(cx, ps[1..], fa)[i - 1] == ParamTypes(cx, ps, fa)[i]; }
      }
    }
  }

  /** What holds when annotation of a subexpression starts. */
  ghost predicate Start(cx: Context, e: Expr, st: State, g: TypeEnv, d: Scope, seen: set<string>) {
    && ContextOk(cx) && WellFormed(cx, e)
    && Match(st.tables, g, d, st.functionno)
    && PlainNames(cx, g) && st.tables.names.Keys <= seen && Scoped(cx, e, g.Keys, seen)
  }

  ghost predicate StartElems(cx: Context, es: seq<Expr>, st: State, g: TypeEnv, d: Scope, seen: set<string>) {
    && ContextOk(cx) && (forall i | 0 <= i < |es| :: WellFormed(cx, es[i]))
    && Match(st.tables, g, d, st.functionno)
    && PlainNames(cx, g) && st.tables.names.Keys <= seen && ScopedElems(cx, es, g.Keys, seen)
  }

  /** Each element is accepted, or is an operator symbol at the head of the list. */
  ghost predicate ElemsAccepted(cx: Context, anns: seq<TAnn>, first: bool) {
    forall i | 0 <= i < |anns| ::
      Accepted(cx, Done(anns[i])) || (first && i == 0 && anns[i].a.AOperator?)
  }

  /** No bare type constructor: such a symbol only occurs at the head of a type. */
  ghost predicate Proper(cx: Context, t: Type) {
    t.TSym? && cx.cat.isTypeName(t.name) ==> cx.cat.isType(t)
  }

  /** One more function in scope. */
  lemma MatchWider(tb: Tables, g: TypeEnv, d: Scope, n: nat, ts: seq<Type>)
    requires Match(tb, g, d, n)
    ensures Match(tb, g, d[n + 1 := ts], n + 1)
  {}

  lemma MatchBody(cx: Context, ps: seq<Param>, fa: seq<TypedArg>, tb: Tables, n: nat, g: TypeEnv, d: Scope)
    requires Match(tb, g, d, n) && EnterParams(cx, ps, fa, tb, 1, n + 1).Done?
    ensures var ts := ParamTypes(cx, ps, fa);
            var tb1 := TablesAfterParams(cx, ps, fa, tb, 1, n + 1);
            Match(tb1, Bind(g, ps, ts), d[n + 1 := ts], n + 1) && tb1.names.Keys == tb.names.Keys + ParamNames(ps)
  {
    var ts := ParamTypes(cx, ps, fa);
    var d1 := d[n + 1 := ts];
    assert Match(tb, g, d1, n + 1) by { MatchWider(tb, g, d, n, ts); }
    assert d1[n + 1] == ts && |ts| == |ps|;
    EnterMatches(cx, ps, fa, tb, 1, n + 1, g, d1);
  }

  lemma PlainBody(cx: Context, ps: seq<Param>, fa: seq<TypedArg>, tb: Tables, n: nat, g: TypeEnv)
    requires PlainNames(cx, g) && EnterParams(cx, ps, fa, tb, 1, n).Done?
    requires forall i | 0 <= i < |ps| :: ps[i].name !in cx.cat.objects
    ensures PlainNames(cx, Bind(g, ps, ParamTypes(cx, ps, fa)))
  {
    var ts := ParamTypes(cx, ps, fa);
    EnterPlain(cx, ps, fa, tb, 1, n);
    BindKeys(g, ps, ts);
    BindElements(g, ps, ts);
  }

  lemma StartBody(cx: Context, ps: seq<Param>, body: Expr, st: State, fa: seq<TypedArg>, g: TypeEnv, d: Scope, seen: set<string>)
    requires Start(cx, Fun(ps, body), st, g, d, seen)
    requires EnterParams(cx, ps, fa, st.tables, 1, st.functionno + 1).Done?
    ensures var n := st.functionno + 1;
            var ts := ParamTypes(cx, ps, fa);
            var st1 := st.(functionno := n, tables := TablesAfterParams(cx, ps, fa, st.tables, 1, n));
            Start(cx, body, st1, Bind(g, ps, ts), d[n := ts], seen + ParamNames(ps))
  {
    var n := st.functionno + 1;
    var g1 := Bind(g, ps, ParamTypes(cx, ps, fa));
    MatchBody(cx, ps, fa, st.tables, st.functionno, g, d);
    BindKeys(g, ps, ParamTypes(cx, ps, fa));
    assert PlainNames(cx, g1) by { PlainBody(cx, ps, fa, st.tables, n, g); }
    assert g1.Keys == g.Keys + ParamNames(ps);
    assert Scoped(cx, body, g1.Keys, seen + ParamNames(ps)) && WellFormed(cx, body);
  }

  lemma {:induction false} BindKeys<T>(env: map<string, T>, ps: seq<Param>, vs: seq<T>)
    requires |ps| == |vs|
    ensures Bind(env, ps, vs).Keys == env.Keys + ParamNames(ps)
    decreases |ps|
  {
    if ps != [] {
      BindKeys(env[ps[0].name := vs[0]], ps[1..], vs[1..]);
      NamesOfRest(ps);
    }
  }

  lemma {:induction false} BindElements<T>(env: map<string, T>, ps: seq<Param>, vs: seq<T>)
    requires |ps| == |vs|
    ensures forall x | x in Bind(env, ps, vs) ::
              (x in env && Bind(env, ps, vs)[x] == env[x]) || Bind(env, ps, vs)[x] in vs
    decreases |ps|
  {
    if ps != [] {
      BindElements(env[ps[0].name := vs[0]], ps[1..], vs[1..]);
    }
  }

  lemma StartRest(cx: Context, es: seq<Expr>, st: State, fa: seq<TypedArg>, g: TypeEnv, d: Scope, seen: set<string>)
    requires es != [] && StartElems(cx, es, st, g, d, seen)
    ensures Start(cx, es[0], st, g, d, seen)
    ensures StartElems(cx, es[1..], Annotate(cx, es[0], st, fa).1, g, d, seen + Binders(es[0]))
  {
    var st1 := Annotate(cx, es[0], st, fa).1;
    AnnotateGrows(cx, es[0], st, fa);
    MatchGrows(st.tables, st1.tables, g, d, st.functionno, st1.functionno);
    forall i | 0 <= i < |es[1..]| ensures WellFormed(cx, es[1..][i]) { assert es[1..][i] == es[i + 1]; }
  }

  /** The first candidate that accepts obeys the soundness assumption. */
  lemma {:induction false} ResolveAccepted(cx: Context, cands: seq<OpKey>, ps: seq<TypedArg>)
    requires cands != [] && !Resolve(cx, cands, ps, true).result.Rejected?
    requires forall i | 0 <= i < |cands| :: cands[i].op < OPBASE
    ensures var r := Resolve(cx, cands, ps, true);
            && r.key in cands
            && r.result == TryOp(cx, r.key, ps)
            && cx.alg.select(r.key, Types(ps)) >= 0
            && r.opFunId == cx.alg.select(r.key, Types(ps)) * OPBASE + r.key.op
    decreases |cands|
  {
    if TryOp(cx, cands[0], ps).Rejected? {
      ResolveAccepted(cx, cands[1..], ps);
    }
  }

  /** The packed number gives back the operator and its evaluation function. */
  lemma Unpack(sel: int, op: nat)
    requires op < OPBASE
    ensures (sel * OPBASE + op) % OPBASE == op && (sel * OPBASE + op) / OPBASE == sel
  {}

  /** If the whole list is accepted, then so is each of its elements. */
  lemma {:induction false} CombineAccepted(cx: Context, es: seq<Expr>, anns: seq<TAnn>, st: State)
    requires ContextOk(cx) && |anns| == |es| > 0
    requires Accepted(cx, Combine(cx, es, anns, st).0)
    requires anns[0].a.AOperator? ==> exists x ::
               x in cx.cat.operators && cx.cat.operators[x] == anns[0].a.cands
    ensures ElemsAccepted(cx, anns, true)
  {
    var r := Combine(cx, es, anns, st).0.v;
    if anns[0].a.AOperator? {
      OperatorArgsAccepted(cx, es, anns, st);
    } else if anns[0].a.AAbstraction? {
      CallArgsAccepted(cx, es, anns, st);
    } else {
      forall i | 0 <= i < |anns| ensures Accepted(cx, Done(anns[i])) {
        assert r.t.elems[i] == anns[i].t && r.a.elems[i] == anns[i];
      }
    }
  }

  lemma {:induction false} OperatorArgsAccepted(cx: Context, es: seq<Expr>, anns: seq<TAnn>, st: State)
    requires ContextOk(cx) && |anns| == |es| > 0 && anns[0].a.AOperator?
    requires Accepted(cx, Combine(cx, es, anns, st).0)
    requires exists x :: x in cx.cat.operators && cx.cat.operators[x] == anns[0].a.cands
    ensures ElemsAccepted(cx, anns, true)
  {
    var r := Combine(cx, es, anns, st).0.v;
    var args := Pairs(anns[1..], es[1..]);
    var res := Resolve(cx, anns[0].a.cands, args, true);
    ResolveAccepted(cx, anns[0].a.cands, args);
    assert AcceptanceOk(cx, res.key, args, res.result);
    forall i | 1 <= i < |anns| ensures Accepted(cx, Done(anns[i])) {
      assert args[i - 1].t == anns[i].t;
      assert r.a.args[i - 1] == anns[i];
    }
  }

  lemma {:induction false} CallArgsAccepted(cx: Context, es: seq<Expr>, anns: seq<TAnn>, st: State)
    requires CatalogOk(cx) && |anns| == |es| > 0 && anns[0].a.AAbstraction?
    requires Accepted(cx, Combine(cx, es, anns, st).0)
    ensures ElemsAccepted(cx, anns, true)
  {
    var r := Combine(cx, es, anns, st).0.v;
    var ps := MapParams(anns[0].t);
    forall i | 1 <= i < |anns| ensures Accepted(cx, Done(anns[i])) {
      assert ps[i - 1] == Types(Pairs(anns[1..], es[1..]))[i - 1] == anns[i].t;
      assert r.a.args[i - 1] == anns[i];
    }
    forall i | 0 <= i < |anns[0].t.elems| ensures Clean(anns[0].t.elems[i]) {
      if 1 <= i < |anns[0].t.elems| - 1 { assert ps[i - 1] == anns[0].t.elems[i]; }
    }
  }

  /** An operator annotation comes from an operator symbol only. */
  lemma AnnotatedOperator(cx: Context, e: Expr, st: State, fa: seq<TypedArg>, g: TypeEnv, d: Scope, seen: set<string>)
    requires Start(cx, e, st, g, d, seen) && Annotate(cx, e, st, fa).0.Done?
    ensures var a := Annotate(cx, e, st, fa).0.v;
            && (a.a.AOperator? <==> e.Sym? && e.name !in cx.cat.objects && e.name in cx.cat.operators)
            && (a.a.AOperator? ==> a.t == TYPEERROR && a.a.cands == cx.cat.operators[e.name])
            && (a.a.AAbstraction? ==> MeansFunction(e))
            && (MeansFunction(e) ==> a.a.AAbstraction? || a.a.AFunctionError?)
  {
    match e
    case FunObj(_, def) => assert def.Fun?;
    case List(es) =>
      if es != [] {
        var (r, st1) := AnnotateElems(cx, es, st, fa, false, []);
      }
    case _ =>
  }

  // -------------------------------------------------------------- the theorem

  /** An accepted expression has the type the direct semantics gives it. */
  lemma {:induction false} TypesAgree(cx: Context, e: Expr, st: State, fa: seq<TypedArg>, g: TypeEnv, d: Scope, seen: set<string>)
    requires Start(cx, e, st, g, d, seen)
    requires Accepted(cx, Annotate(cx, e, st, fa).0)
    ensures Annotate(cx, e, st, fa).0.v.t == TypeOf(cx, e, g, fa) && Proper(cx, TypeOf(cx, e, g, fa))
    decreases e, 1
  {
    match e
    case Const(_) =>
    case Sym(x) =>
      assert x in st.tables.names && x !in cx.cat.objects && x !in cx.cat.operators ==> x in g;
    case FunObj(_, def) =>
      var none: TypeEnv := map[];
      assert none.Keys == {};
      TypesAgree(cx, def, st.AddValue(ValueEntry(0, false, true)).(tables := EMPTYTABLES), [], none, map[], {});
    case Fun(ps, body) =>
      var ts := ParamTypes(cx, ps, fa);
      FunAccepted(cx, ps, body, st, fa, g, d, seen);
      TypesAgree(cx, body, BodyState(cx, ps, st, fa), fa, Bind(g, ps, ts), d[st.functionno + 1 := ts], seen + ParamNames(ps));
    case List(es) =>
      if es != [] {
        ListAccepted(cx, es, st, fa, g, d, seen);
        ElemTypesAgree(cx, es, st, fa, false, [], g, d, seen);
        ListTypesAgree(cx, es, st, fa, g, d, seen);
      }
    case Counter(_, _) => WrappedTypesAgree(cx, e, st, fa, g, d, seen);
    case Memory(_, _) => WrappedTypesAgree(cx, e, st, fa, g, d, seen);
  }

  lemma {:induction false} WrappedTypesAgree(cx: Context, e: Expr, st: State, fa: seq<TypedArg>, g: TypeEnv, d: Scope, seen: set<string>)
    requires e.Counter? || e.Memory?
    requires Start(cx, e, st, g, d, seen)
    requires Accepted(cx, Annotate(cx, e, st, fa).0)
    ensures Annotate(cx, e, st, fa).0.v.t == TypeOf(cx, e, g, fa) && Proper(cx, TypeOf(cx, e, g, fa))
    decreases e, 0
  {
    var value := if e.Counter? then e.no else e.size;
    TypesAgree(cx, e.e, st.AddValue(ValueEntry(value, true, false)), fa, g, d, seen);
  }

  /** The state in which annotation of a function body starts. */
  function BodyState(cx: Context, ps: seq<Param>, st: State, fa: seq<TypedArg>): (r: State)
    requires st.tables.Valid()
    ensures r.tables.Valid()
  {
    var n := st.functionno + 1;
    EnterParamsValid(cx, ps, fa, st.tables, 1, n);
    st.(functionno := n, tables := TablesAfterParams(cx, ps, fa, st.tables, 1, n))
  }

  /** The body of an accepted function is accepted. */
  lemma FunAccepted(cx: Context, ps: seq<Param>, body: Expr, st: State, fa: seq<TypedArg>, g: TypeEnv, d: Scope, seen: set<string>)
    requires Start(cx, Fun(ps, body), st, g, d, seen)
    requires Accepted(cx, Annotate(cx, Fun(ps, body), st, fa).0)
    ensures EnterParams(cx, ps, fa, st.tables, 1, st.functionno + 1).Done?
    ensures var n := st.functionno + 1;
            var ts := ParamTypes(cx, ps, fa);
            var (b, st2) := Annotate(cx, body, BodyState(cx, ps, st, fa), fa);
            && Start(cx, body, BodyState(cx, ps, st, fa), Bind(g, ps, ts), d[n := ts], seen + ParamNames(ps))
            && Accepted(cx, b)
            && Annotate(cx, Fun(ps, body), st, fa) == (Done(TAnn(AAbstraction(b.v, n), MapType(ts, b.v.t))), st2)
  {
    StartBody(cx, ps, body, st, fa, g, d, seen);
    EnterParamsValid(cx, ps, fa, st.tables, 1, st.functionno + 1);
    var b := Annotate(cx, body, BodyState(cx, ps, st, fa), fa).0;
    var m := MapType(ParamTypes(cx, ps, fa), b.v.t);
    assert m.elems[|m.elems| - 1] == b.v.t;
  }

  /** The head of an accepted list and what became of its elements. */
  lemma ListAccepted(cx: Context, es: seq<Expr>, st: State, fa: seq<TypedArg>, g: TypeEnv, d: Scope, seen: set<string>)
    requires es != [] && Start(cx, List(es), st, g, d, seen)
    requires Accepted(cx, Annotate(cx, List(es), st, fa).0)
    ensures StartElems(cx, es, st, g, d, seen)
    ensures var (r, st1) := AnnotateElems(cx, es, st, fa, false, []);
            && r.Done?
            && r.v[0] == Annotate(cx, es[0], st, fa).0.v
            && ElemsAccepted(cx, r.v, true)
            && Annotate(cx, List(es), st, fa) == Combine(cx, es, r.v, st1)
            && (r.v[0].a.AOperator? <==> MeansOperator(cx, es[0], g))
            && (r.v[0].a.AOperator? ==> r.v[0].a.cands == cx.cat.operators[es[0].name])
            && (r.v[0].a.AAbstraction? <==> MeansFunction(es[0]))
  {
    var (r, st1) := AnnotateElems(cx, es, st, fa, false, []);
    assert r.Done?;
    assert Annotate(cx, es[0], st, fa).0.Done? && r.v[0] == Annotate(cx, es[0], st, fa).0.v;
    assert Start(cx, es[0], st, g, d, seen) by { StartRest(cx, es, st, fa, g, d, seen); }
    AnnotatedOperator(cx, es[0], st, fa, g, d, seen);
    CombineAccepted(cx, es, r.v, st1);
    assert !r.v[0].a.AFunctionError?;
  }

  /** Step from the elements of a list to the list. */
  lemma {:induction false} ListTypesAgree(cx: Context, es: seq<Expr>, st: State, fa: seq<TypedArg>, g: TypeEnv, d: Scope, seen: set<string>)
    requires es != [] && Start(cx, List(es), st, g, d, seen)
    requires Accepted(cx, Annotate(cx, List(es), st, fa).0)
    requires var r := AnnotateElems(cx, es, st, fa, false, []).0;
             r.Done? && Pairs(r.v, es) == TypedElems(cx, es, g, fa, false, [])
    ensures Annotate(cx, List(es), st, fa).0.v.t == TypeOf(cx, List(es), g, fa) && Proper(cx, TypeOf(cx, List(es), g, fa))
  {
    ListAccepted(cx, es, st, fa, g, d, seen);
    var (r, st1) := AnnotateElems(cx, es, st, fa, false, []);
    if r.v[0].a.AOperator? {
      OperatorTypesAgree(cx, es, r.v, st1, fa, g);
    } else if r.v[0].a.AAbstraction? {
      CallTypesAgree(cx, es, r.v, st1, fa, g);
    } else {
      ArgListTypesAgree(cx, es, r.v, st1, fa, g);
    }
  }

  lemma {:induction false} OperatorTypesAgree(cx: Context, es: seq<Expr>, anns: seq<TAnn>, st: State, fa: seq<TypedArg>, g: TypeEnv)
    requires ContextOk(cx) && |anns| == |es| > 0 && anns[0].a.AOperator?
    requires MeansOperator(cx, es[0], g) && anns[0].a.cands == cx.cat.operators[es[0].name]
    requires Accepted(cx, Combine(cx, es, anns, st).0)
    requires Pairs(anns, es) == TypedElems(cx, es, g, fa, false, [])
    ensures Combine(cx, es, anns, st).0.v.t == TypeOf(cx, List(es), g, fa) && Proper(cx, TypeOf(cx, List(es), g, fa))
  {
    var ps := TypedElems(cx, es, g, fa, false, []);
    assert ps[1..] == Pairs(anns[1..], es[1..]);
    var res := Resolve(cx, anns[0].a.cands, ps[1..], true);
    ResolveAccepted(cx, anns[0].a.cands, ps[1..]);
    assert AcceptanceOk(cx, res.key, ps[1..], res.result);
  }

  lemma {:induction false} CallTypesAgree(cx: Context, es: seq<Expr>, anns: seq<TAnn>, st: State, fa: seq<TypedArg>, g: TypeEnv)
    requires |anns| == |es| > 0 && anns[0].a.AAbstraction? && MeansFunction(es[0])
    requires Accepted(cx, Combine(cx, es, anns, st).0)
    requires Pairs(anns, es) == TypedElems(cx, es, g, fa, false, [])
    ensures Combine(cx, es, anns, st).0.v.t == TypeOf(cx, List(es), g, fa) && Proper(cx, TypeOf(cx, List(es), g, fa))
  {
    var ps := TypedElems(cx, es, g, fa, false, []);
    assert ps[1..] == Pairs(anns[1..], es[1..]);
    assert Callable(cx, anns[0].t);
  }

  lemma {:induction false} ArgListTypesAgree(cx: Context, es: seq<Expr>, anns: seq<TAnn>, st: State, fa: seq<TypedArg>, g: TypeEnv)
    requires |anns| == |es| > 0 && !anns[0].a.AOperator? && !anns[0].a.AAbstraction?
    requires !MeansOperator(cx, es[0], g) && !MeansFunction(es[0])
    requires Combine(cx, es, anns, st).0.Done?
    requires Pairs(anns, es) == TypedElems(cx, es, g, fa, false, [])
    ensures Combine(cx, es, anns, st).0.v.t == TypeOf(cx, List(es), g, fa) && Proper(cx, TypeOf(cx, List(es), g, fa))
  {
    var ps := TypedElems(cx, es, g, fa, false, []);
    assert Types(ps) == seq(|anns|, i requires 0 <= i < |anns| => anns[i].t);
  }

  lemma {:induction false} ElemTypesAgree(cx: Context, es: seq<Expr>, st: State, fa: seq<TypedArg>, isOp: bool,
                                          before: seq<TypedArg>, g: TypeEnv, d: Scope, seen: set<string>)
    requires StartElems(cx, es, st, g, d, seen)
    requires var r := AnnotateElems(cx, es, st, fa, isOp, before).0;
             r.Done? && ElemsAccepted(cx, r.v, before == [])
    ensures Pairs(AnnotateElems(cx, es, st, fa, isOp, before).0.v, es) == TypedElems(cx, es, g, fa, isOp, before)
    decreases es, 0
  {
    if es != [] {
      var fa1 := if isOp then before else fa;
      var a, st1, rest, isOp', before' := ElemsCons(cx, es, st, fa, isOp, before);
      assert StartElems(cx, es[1..], st1, g, d, seen + Binders(es[0])) by { StartRest(cx, es, st, fa1, g, d, seen); }
      assert Start(cx, es[0], st, g, d, seen) by { StartRest(cx, es, st, fa1, g, d, seen); }
      ElemsOfRest(cx, a, rest, before == []);
      HeadTypesAgree(cx, es[0], st, fa1, g, d, seen, before == []);
      ElemTypesAgree(cx, es[1..], st1, fa, isOp', before', g, d, seen + Binders(es[0]));
      PairsCons(a, rest, es);
    }
  }

  lemma PairsCons(a: TAnn, rest: seq<TAnn>, es: seq<Expr>)
    requires |es| == |rest| + 1
    ensures Pairs([a] + rest, es) == [TypedArg(a.t, es[0])] + Pairs(rest, es[1..])
  {}

  lemma ElemsOfRest(cx: Context, a: TAnn, rest: seq<TAnn>, first: bool)
    requires ElemsAccepted(cx, [a] + rest, first)
    ensures ElemsAccepted(cx, rest, false)
    ensures Accepted(cx, Done(a)) || (first && a.a.AOperator?)
  {
    assert ([a] + rest)[0] == a;
    forall i | 0 <= i < |rest| ensures Accepted(cx, Done(rest[i])) { assert rest[i] == ([a] + rest)[i + 1]; }
  }

  lemma {:induction false} HeadTypesAgree(cx: Context, e: Expr, st: State, fa: seq<TypedArg>, g: TypeEnv, d: Scope,
                                          seen: set<string>, first: bool)
    requires Start(cx, e, st, g, d, seen)
    requires var r := Annotate(cx, e, st, fa).0; Accepted(cx, r) || (first && r.Done? && r.v.a.AOperator?)
    ensures var a := Annotate(cx, e, st, fa).0.v;
            a.t == TypeOf(cx, e, g, fa) && (a.a.AOperator? <==> MeansOperator(cx, e, g))
    decreases e, 2
  {
    AnnotatedOperator(cx, e, st, fa, g, d, seen);
    if Accepted(cx, Annotate(cx, e, st, fa).0) {
      TypesAgree(cx, e, st, fa, g, d, seen);
    }
  }
}
