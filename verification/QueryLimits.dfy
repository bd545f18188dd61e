/**
 Where the query processor and the lexical reading of queries part, and exactly when: names
 that outlive their scope, objects that hide parameters, functions with too many parameters
 for one argument vector, and the order in which overloaded operators are tried.
 */
module QueryLimits {
  import opened QueryTerms
  import opened Annotation
  import opened Semantics
  import opened TypedTrees
  import opened CompilerTypes
  import opened CompilerCorrectness

  // ------------------------------------------------------------- overloading

  /** All candidates reject the arguments. */
  predicate NoneAccepts(cx: Context, cands: seq<OpKey>, ps: seq<TypedArg>) {
    forall i | 0 <= i < |cands| :: TryOp(cx, cands[i], ps).Rejected?
  }

  /** Candidate `k` is the resolution, rejected only because its packed number is negative. */
  predicate TakesCandidate(cx: Context, cands: seq<OpKey>, ps: seq<TypedArg>, checkFunId: bool, r: Resolution, k: nat)
    requires k < |cands|
  {
    && r.key == cands[k]
    && r.result == (if checkFunId && cx.alg.select(r.key, Types(ps)) * OPBASE + r.key.op < 0 then Rejected
                    else TryOp(cx, cands[k], ps))
  }

  /**
   The first candidate that accepts is taken, and it loses its acceptance only to a negative
   function index; exactly if there is none, the last candidate stands for all.
   */
  lemma {:induction false} FirstAcceptingIsTaken(cx: Context, cands: seq<OpKey>, ps: seq<TypedArg>, checkFunId: bool)
    requires cands != []
    ensures var r := Resolve(cx, cands, ps, checkFunId);
            if NoneAccepts(cx, cands, ps) then r.result.Rejected? && r.key == cands[|cands| - 1]
            else exists k: nat :: FirstAccepting(cx, cands, ps, k) && TakesCandidate(cx, cands, ps, checkFunId, r, k)
    decreases |cands|
  {
    if !TryOp(cx, cands[0], ps).Rejected? {
      assert FirstAccepting(cx, cands, ps, 0) && TakesCandidate(cx, cands, ps, checkFunId, Resolve(cx, cands, ps, checkFunId), 0);
    } else if |cands| > 1 {
      var rest := cands[1..];
      FirstAcceptingIsTaken(cx, rest, ps, checkFunId);
      if NoneAccepts(cx, rest, ps) {
        forall i | 0 <= i < |cands| ensures TryOp(cx, cands[i], ps).Rejected? {
          assert i == 0 || cands[i] == rest[i - 1];
        }
      } else {
        var r := Resolve(cx, rest, ps, checkFunId);
        var k: nat :| FirstAccepting(cx, rest, ps, k) && TakesCandidate(cx, rest, ps, checkFunId, r, k);
        assert FirstAccepting(cx, cands, ps, k + 1) && TakesCandidate(cx, cands, ps, checkFunId, r, k + 1);
        assert !TryOp(cx, cands[k + 1], ps).Rejected?;
      }
    }
  }

  /** The type mapping an operator brings says `a`, which is no error, and the operator is not excluded. */
  predicate Answers(cx: Context, key: OpKey, ps: seq<TypedArg>, a: TypeMapResult) {
    && (cx.alg.usesArgs(key) ==> cx.alg.typeArgMap(key, ps) == a)
    && (!cx.alg.usesArgs(key) ==> cx.alg.typeMap(key, Types(ps)) == a)
    && a != Rejected && a != Mapped(TYPEERROR) && !cx.alg.excluded(key)
  }

  /** Trying an operator accepts with what its own type mapping answers, or rejects. */
  lemma TriedExactly(cx: Context, key: OpKey, ps: seq<TypedArg>, a: TypeMapResult)
    ensures TryOp(cx, key, ps) == a && a != Rejected <==> Answers(cx, key, ps, a)
    ensures TryOp(cx, key, ps).Rejected? <==> forall b :: !Answers(cx, key, ps, b)
  {
    assert TryOp(cx, key, ps) != Rejected ==> Answers(cx, key, ps, TryOp(cx, key, ps));
  }

  /** Argument types are told in order, and the arguments after those of a list are its constants. */
  lemma AppendedArgumentsArrive(cx: Context, es: seq<Expr>, anns: seq<TAnn>, st: State)
    requires |anns| == |es| > 0 && anns[0].a.AOperator? && anns[0].a.cands != []
    ensures var res := Resolve(cx, anns[0].a.cands, Pairs(anns[1..], es[1..]), true).result;
            var r := Combine(cx, es, anns, st).0;
            && r.Done? && r.v.a.AApplyOp?
            && (res.Rejected? ==> r.v.a.args == anns[1..] && r.v.t == TYPEERROR)
            && (res.Mapped? ==> r.v.a.args == anns[1..] && r.v.t == res.result)
            && (res.Append? ==>
                  && |r.v.a.args| == |anns| - 1 + |res.extra| && r.v.a.args[..|anns| - 1] == anns[1..] && r.v.t == res.result
                  && forall i | 0 <= i < |res.extra| && res.extra[i].ok :: r.v.a.args[|anns| - 1 + i].t == res.extra[i].ty)
  {
    var res := Resolve(cx, anns[0].a.cands, Pairs(anns[1..], es[1..]), true).result;
    if res.Append? {
      var args := Combine(cx, es, anns, st).0.v.a.args;
      assert args == anns[1..] + AnnotateConsts(res.extra, st).0;
      forall i | 0 <= i < |res.extra| && res.extra[i].ok ensures args[|anns| - 1 + i].t == res.extra[i].ty {
        ConstAt(res.extra, st, i);
      }
    } else {
      assert anns[1..] + [] == anns[1..];
    }
  }

  lemma {:induction false} ConstAt(cs: seq<Constant>, st: State, i: nat)
    requires i < |cs| && cs[i].ok
    ensures AnnotateConsts(cs, st).0[i].t == cs[i].ty
    decreases i
  {
    if i > 0 { ConstAt(cs[1..], AnnotateConst(cs[0], st).1, i - 1); }
  }

  lemma OnlyOneIsFirst(cx: Context, cands: seq<OpKey>, ps: seq<TypedArg>, j: nat, k: nat)
    requires FirstAccepting(cx, cands, ps, j) && FirstAccepting(cx, cands, ps, k)
    ensures j == k
  {}

  /**
   The type of a parameter: a named type, what the first accepting candidate of a type operator
   makes of the arguments before it (the operator they belong to left out), or what is written.
   */
  lemma {:induction false} ParameterTypeExactly(cx: Context, x: string, t: Type, fa: seq<TypedArg>)
    ensures !t.TSym? ==> ParamType(cx, t, fa) == t
    ensures x in cx.cat.types ==> ParamType(cx, TSym(x), fa) == cx.cat.types[x]
    ensures x !in cx.cat.types && x !in cx.cat.operators ==> ParamType(cx, TSym(x), fa) == TSym(x)
    ensures x !in cx.cat.types && x in cx.cat.operators ==>
              var ps, r := if fa == [] then [] else fa[1..], ParamType(cx, TSym(x), fa);
              r == TYPEERROR || exists k: nat :: FirstAccepting(cx, cx.cat.operators[x], ps, k) && Answers(cx, cx.cat.operators[x][k], ps, Mapped(r))
    ensures x !in cx.cat.types && x in cx.cat.operators ==>
              var ps := if fa == [] then [] else fa[1..];
              forall k: nat, r | FirstAccepting(cx, cx.cat.operators[x], ps, k) && Answers(cx, cx.cat.operators[x][k], ps, Mapped(r)) ::
                ParamType(cx, TSym(x), fa) == r
  {
    if x !in cx.cat.types && x in cx.cat.operators && cx.cat.operators[x] != [] {
      var cands, ps := cx.cat.operators[x], if fa == [] then [] else fa[1..];
      FirstAcceptingIsTaken(cx, cands, ps, false);
      if !NoneAccepts(cx, cands, ps) {
        var k: nat :| FirstAccepting(cx, cands, ps, k) && TakesCandidate(cx, cands, ps, false, Resolve(cx, cands, ps, false), k);
        TriedExactly(cx, cands[k], ps, TryOp(cx, cands[k], ps));
        forall j: nat, r | FirstAccepting(cx, cands, ps, j) && Answers(cx, cands[j], ps, Mapped(r))
          ensures ParamType(cx, TSym(x), fa) == r
        {
          OnlyOneIsFirst(cx, cands, ps, j, k);
          TriedExactly(cx, cands[j], ps, Mapped(r));
        }
      }
    }
  }

  /** A parameter may have a type, or be a stream of a type. */
  lemma ParameterTypeAccepted(cx: Context, t: Type, rest: seq<Type>)
    ensures !IsStream(t) ==> (ParamTypeOk(cx, t) <==> cx.cat.isType(t))
    ensures ParamTypeOk(cx, TList([TSym("stream"), t] + rest)) <==> cx.cat.isType(t)
  {
    assert ([TSym("stream"), t] + rest)[1] == t;
  }

  // --------------------------------------------------------------------- names

  /** A plain type: neither an alias nor an operator, and known to the catalog. */
  predicate Plain(cx: Context, t: Type) {
    cx.cat.isType(t) && !IsStream(t) && (t.TSym? ==> t.name !in cx.cat.types && t.name !in cx.cat.operators)
  }

  function Identity(x: string, t: Type): Expr { Fun([Param(x, t)], Sym(x)) }

  const START := State([], 0, EMPTYTABLES, true)

  lemma EnterOne(cx: Context, x: string, t: Type, tb: Tables)
    requires Plain(cx, t) && x !in cx.cat.operators && tb.Valid() && !tb.IsVariable(x)
    ensures EnterParams(cx, [Param(x, t)], [], tb, 1, 1) == Done(tb.EnterVariable(x, VarEntry(1, 1, t)))
    ensures ParamTypes(cx, [Param(x, t)], []) == [t]
  {
    var ps := [Param(x, t)];
    assert ps[1..] == [];
    assert ParamType(cx, t, []) == t;
  }

  lemma AnnotateIdentity(cx: Context, x: string, t: Type)
    requires Plain(cx, t) && x !in cx.cat.operators
    ensures var (r, st) := Annotate(cx, Identity(x, t), START, []);
            && st.tables == EMPTYTABLES.EnterVariable(x, VarEntry(1, 1, t)) && st.functionno == 1
            && r.Done? && r.v.a.AAbstraction?
            && r.v.t == MapType([t], if x in cx.cat.objects then cx.cat.objects[x].ty else t)
            && (x !in cx.cat.objects ==> st.values == [])
  {
    EnterOne(cx, x, t, EMPTYTABLES);
  }

  /**
   A name stays after the end of its function: applied to its own parameter, the identity is
   accepted with the parameter's type, although no parameter of that name is in scope.
   */
  lemma {:induction false} NamesStay(cx: Context, x: string, t: Type)
    requires Plain(cx, t) && x !in cx.cat.operators && x !in cx.cat.objects && t != TSym(x)
    ensures var query := List([Identity(x, t), Sym(x)]);
            && Annotate(cx, query, START, []).0.Done? && Annotate(cx, query, START, []).0.v.t == t
            && TypeOf(cx, query, map[], []) == TYPEERROR
            && !Scoped(cx, query, {}, {})
  {
    AnnotateIdentity(cx, x, t);
    MapTypeParts([t], t);
    var es := [Identity(x, t), Sym(x)];
    var (f, st1) := Annotate(cx, es[0], START, []);
    var a := TAnn(AVariable(x, 1, 1), t);
    assert es[1..] == [Sym(x)] && es[1..][1..] == [];
    assert Annotate(cx, Sym(x), st1, []) == (Done(a), st1);
    assert AnnotateElems(cx, es[1..], st1, [], false, [TypedArg(f.v.t, es[0])]) == (Done([a] + []), st1);
    var before: seq<TypedArg> := [];
    assert before + [TypedArg(f.v.t, es[0])] == [TypedArg(f.v.t, es[0])] && [f.v] + ([a] + []) == [f.v, a];
    assert AnnotateElems(cx, es, START, [], false, before) == (Done([f.v, a]), st1);
    assert Types(Pairs([f.v, a][1..], es[1..])) == [t];
    DirectTypes(cx, x, t);
  }

  /**
   In any state of annotation whose tables describe the parameters in scope, a symbol gets its
   lexical type exactly if it is in scope and no object or operator hides it, or it is not in scope
   and an object, an operator, or no name that has stayed behind with another type.
   */
  lemma SymbolAgreesExactly(cx: Context, x: string, st: State, fa: seq<TypedArg>, g: TypeEnv, d: Scope)
    requires Match(st.tables, g, d, st.functionno)
    ensures var r, t := Annotate(cx, Sym(x), st, fa).0, TypeOf(cx, Sym(x), g, fa);
            (r.Done? && r.v.t == t) <==>
              if x in g then
                if x in cx.cat.objects then cx.cat.objects[x].ty == t else x in cx.cat.operators ==> t == TYPEERROR
              else
                || x in cx.cat.objects || x in cx.cat.operators
                || (if x in st.tables.names then st.tables.GetVariable(x).typeexpr == t else !cx.cat.isTypeName(x))
  {}

  lemma {:induction false} DirectTypes(cx: Context, x: string, t: Type)
    requires Plain(cx, t) && x !in cx.cat.operators
    ensures TypeOf(cx, Identity(x, t), map[], []) == MapType([t], t)
    ensures x !in cx.cat.objects && t != TSym(x) ==>
              TypeOf(cx, List([Identity(x, t), Sym(x)]), map[], []) == TYPEERROR
    ensures x !in cx.cat.objects ==> !Scoped(cx, List([Identity(x, t), Sym(x)]), {}, {})
  {
    var ps := [Param(x, t)];
    var none: TypeEnv := map[];
    EnterOne(cx, x, t, EMPTYTABLES);
    assert ps[1..] == [] && [t][1..] == [];
    assert Bind(none, ps, [t]) == none[x := t];
    MapTypeParts([t], t);
    var es := [Identity(x, t), Sym(x)];
    var p0, p1 := TypedArg(MapType([t], t), es[0]), TypedArg(TypeOfSym(cx, x, none), es[1]);
    assert es[1..] == [es[1]] && es[1..][1..] == [];
    assert TypedElems(cx, es[1..], none, [], false, [p0]) == [p1] + TypedElems(cx, [], none, [], false, [p0, p1]);
    var before: seq<TypedArg> := [];
    assert before + [p0] == [p0] && [p0] + [p1] == [p0, p1];
    assert es[0] == Fun(ps, Sym(x)) && !es[0].Sym?;
    assert p0 == TypedArg(TypeOf(cx, es[0], none, []), es[0]);
    assert TypedElems(cx, es, none, [], false, before) == [p0] + TypedElems(cx, es[1..], none, [], false, before + [p0]);
    assert TypedElems(cx, es, none, [], false, []) == [p0] + TypedElems(cx, es[1..], none, [], false, [p0]);
    assert Types([p1])[0] == p1.t;
    assert ParamNames(ps) == {x} by { assert ps[0].name in ParamNames(ps); }
    assert Binders(es[0]) == {x};
    if x !in cx.cat.objects {
      assert !Scoped(cx, es[1..][0], {}, {x});
      assert !ScopedElems(cx, es[1..], {}, {} + Binders(es[0]));
    }
  }

  /**
   At any point of annotation a parameter in scope is seen exactly when no object bears its name,
   or one of its type.
   */
  lemma ObjectsHideParameters(cx: Context, x: string, st: State, fa: seq<TypedArg>, g: TypeEnv, d: Scope)
    requires Match(st.tables, g, d, st.functionno) && x in g && x !in cx.cat.operators
    ensures var r := Annotate(cx, Sym(x), st, fa).0;
            r.Done? && (r.v.t == TypeOf(cx, Sym(x), g, fa) <==> x !in cx.cat.objects || cx.cat.objects[x].ty == g[x])
  {}

  /** So the identity gets its type exactly when its parameter is not hidden. */
  lemma {:induction false} HiddenInIdentity(cx: Context, x: string, t: Type)
    requires Plain(cx, t) && x !in cx.cat.operators
    ensures var r := Annotate(cx, Identity(x, t), START, []).0;
            r.Done? && (r.v.t == TypeOf(cx, Identity(x, t), map[], []) <==>
                          x !in cx.cat.objects || cx.cat.objects[x].ty == t)
  {
    AnnotateIdentity(cx, x, t);
    DirectTypes(cx, x, t);
    MapTypeParts([t], t);
    if x in cx.cat.objects { MapTypeParts([t], cx.cat.objects[x].ty); }
  }

  // --------------------------------------------------------------------- slots

  /** The slot an argument is loaded into, and the slot a stream argument is looked up in. */
  function PlainSlot(p: nat): int { p - 1 }

  function StreamSlot(p: nat): int { MAXARG - p }

  /** Of a function with `n` parameters no plain slot is taken for a stream slot exactly if n <= MAXARG / 2. */
  lemma {:induction false} SlotsStayApart(n: nat)
    ensures n <= MAXPLAIN <==>
              forall p, q | 1 <= p <= n && 1 <= q <= n :: PlainSlot(p) != StreamSlot(q)
  {
    if n > MAXPLAIN {
      assert PlainSlot(MAXPLAIN + 1) == StreamSlot(MAXPLAIN);
    }
  }

  // ------------------------------------------------------------------ counters

  /** A counter definition is accepted exactly for 1..NO_COUNTERS, one more than counters exist. */
  lemma {:induction false} CounterAccepted(cx: Context, no: int, e: Expr, st: State, fa: seq<TypedArg>)
    requires st.tables.Valid()
    requires var r := Annotate(cx, e, st.AddValue(ValueEntry(no, true, false)), fa).0; r.Done? && r.v.t != TYPEERROR
    ensures var r := Annotate(cx, Counter(no, e), st, fa).0;
            r.Done? && (r.v.t != TYPEERROR <==> 1 <= no <= NOCOUNTERS)
  {}
}
