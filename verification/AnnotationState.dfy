/**
 How annotation changes the state of the query processor: values, function numbers and
 tables only grow, names come from binders of the annotated expression only, and the
 abstractions of one query are numbered without gaps in the order they are met.
 */
module AnnotationState {
  import opened QueryTerms
  import opened Annotation
  import opened Semantics

  ghost predicate TablesGrow(tb: Tables, tb': Tables) {
    && tb.entries <= tb'.entries
    && forall x | x in tb.names :: x in tb'.names && tb'.names[x] == tb.names[x]
  }

  ghost predicate Grows(st: State, st': State) {
    && st.values <= st'.values
    && st.functionno <= st'.functionno
    && TablesGrow(st.tables, st'.tables)
    && (st'.isDefined ==> st.isDefined)
  }

  lemma {:induction false} ParamsGrow(cx: Context, ps: seq<Param>, fa: seq<TypedArg>, tb: Tables, position: nat, funindex: nat)
    requires tb.Valid()
    ensures TablesGrow(tb, TablesAfterParams(cx, ps, fa, tb, position, funindex))
    ensures TablesAfterParams(cx, ps, fa, tb, position, funindex).names.Keys <= tb.names.Keys + ParamNames(ps)
    decreases |ps|
  {
    if ps != [] {
      var t := ParamType(cx, ps[0].ptype, fa);
      var tb1 := tb.EnterVariable(ps[0].name, VarEntry(position, funindex, t));
      if !(tb.IsVariable(ps[0].name) || ps[0].name in cx.cat.operators || !ParamTypeOk(cx, t)) {
        ParamsGrow(cx, ps[1..], fa, tb1, position + 1, funindex);
        NamesOfRest(ps);
      }
    }
  }

  lemma {:induction false} NamesOfRest(ps: seq<Param>)
    requires ps != []
    ensures ParamNames(ps) == {ps[0].name} + ParamNames(ps[1..])
  {
    forall x | x in ParamNames(ps) ensures x in {ps[0].name} + ParamNames(ps[1..]) {
      var i :| 0 <= i < |ps| && ps[i].name == x;
      if i > 0 { assert ps[1..][i - 1].name == x; }
    }
    forall x | x in ParamNames(ps[1..]) ensures x in ParamNames(ps) {
      var i :| 0 <= i < |ps[1..]| && ps[1..][i].name == x;
      assert ps[i + 1].name == x;
    }
  }

  /** An annotated list, taken apart at its first element. */
  lemma ElemsCons(cx: Context, es: seq<Expr>, st: State, fa: seq<TypedArg>, isOp: bool, before: seq<TypedArg>)
    returns (a: TAnn, st1: State, rest: seq<TAnn>, isOp': bool, before': seq<TypedArg>)
    requires es != [] && st.tables.Valid() && AnnotateElems(cx, es, st, fa, isOp, before).0.Done?
    ensures (Done(a), st1) == Annotate(cx, es[0], st, if isOp then before else fa) && st1.tables.Valid()
    ensures isOp' == (if before == [] then a.a.AOperator? else isOp) && before' == before + [TypedArg(a.t, es[0])]
    ensures (Done(rest), AnnotateElems(cx, es, st, fa, isOp, before).1) == AnnotateElems(cx, es[1..], st1, fa, isOp', before')
    ensures AnnotateElems(cx, es, st, fa, isOp, before).0.v == [a] + rest
  {
    var (r, st1') := Annotate(cx, es[0], st, if isOp then before else fa);
    a, st1 := r.v, st1';
    isOp' := if before == [] then a.a.AOperator? else isOp;
    before' := before + [TypedArg(a.t, es[0])];
    rest := AnnotateElems(cx, es[1..], st1, fa, isOp', before').0.v;
  }

  lemma {:induction false} AnnotateGrows(cx: Context, e: Expr, st: State, fa: seq<TypedArg>)
    requires st.tables.Valid()
    ensures var st' := Annotate(cx, e, st, fa).1;
            Grows(st, st') && st'.tables.names.Keys <= st.tables.names.Keys + Binders(e)
    decreases e, 1
  {
    match e
    case Const(_) =>
    case Sym(_) =>
    case FunObj(_, def) =>
      AnnotateGrows(cx, def, st.AddValue(ValueEntry(0, false, true)).(tables := EMPTYTABLES), []);
    case Fun(ps, body) => FunGrows(cx, ps, body, st, fa);
    case List(es) =>
      if es != [] { ListGrows(cx, es, st, fa); }
    case Counter(no, e1) => AnnotateGrows(cx, e1, st.AddValue(ValueEntry(no, true, false)), fa);
    case Memory(size, e1) => AnnotateGrows(cx, e1, st.AddValue(ValueEntry(size, true, false)), fa);
  }

  lemma {:induction false} FunGrows(cx: Context, ps: seq<Param>, body: Expr, st: State, fa: seq<TypedArg>)
    requires st.tables.Valid()
    ensures var st' := Annotate(cx, Fun(ps, body), st, fa).1;
            Grows(st, st') && st'.tables.names.Keys <= st.tables.names.Keys + Binders(Fun(ps, body))
    decreases body, 2
  {
    var n := st.functionno + 1;
    var st1 := InBody(cx, ps, st, fa);
    EnterParamsValid(cx, ps, fa, st.tables, 1, n);
    ParamsGrow(cx, ps, fa, st.tables, 1, n);
    if EnterParams(cx, ps, fa, st.tables, 1, n).Done? {
      AnnotateGrows(cx, body, st1, fa);
      GrowsOn(st, st1, Annotate(cx, body, st1, fa).1);
    }
  }

  lemma GrowsOn(st: State, st1: State, st2: State)
    requires Grows(st, st1) && Grows(st1, st2)
    ensures Grows(st, st2)
  {}

  lemma {:induction false} ListGrows(cx: Context, es: seq<Expr>, st: State, fa: seq<TypedArg>)
    requires st.tables.Valid() && es != []
    ensures var st' := Annotate(cx, List(es), st, fa).1;
            Grows(st, st') && st'.tables.names.Keys <= st.tables.names.Keys + Binders(List(es))
    decreases es, 1
  {
    AnnotateElemsGrows(cx, es, st, fa, false, []);
    var (r, st1) := AnnotateElems(cx, es, st, fa, false, []);
    if r.Done? { CombineGrows(cx, es, r.v, st1); }
  }

  lemma {:induction false} AnnotateElemsGrows(cx: Context, es: seq<Expr>, st: State, fa: seq<TypedArg>, isOp: bool,
                                              before: seq<TypedArg>)
    requires st.tables.Valid()
    ensures var st' := AnnotateElems(cx, es, st, fa, isOp, before).1;
            Grows(st, st') && st'.tables.names.Keys <= st.tables.names.Keys + BindersOf(es)
    decreases es, 0
  {
    if es != [] {
      var fa1 := if isOp then before else fa;
      var (r, st1) := Annotate(cx, es[0], st, fa1);
      AnnotateGrows(cx, es[0], st, fa1);
      if r.Done? {
        AnnotateElemsGrows(cx, es[1..], st1, fa, if before == [] then r.v.a.AOperator? else isOp,
                           before + [TypedArg(r.v.t, es[0])]);
      }
    }
  }

  lemma {:induction false} CombineGrows(cx: Context, es: seq<Expr>, anns: seq<TAnn>, st: State)
    requires |anns| == |es| > 0
    ensures var st' := Combine(cx, es, anns, st).1;
            st' == st.(values := st'.values) && st.values <= st'.values
  {
    match anns[0].a
    case AOperator(_, cands) =>
      if cands != [] {
        AnnotateConstsState(Extra(Resolve(cx, cands, Pairs(anns[1..], es[1..]), true).result), st);
      }
    case _ =>
  }

  // ----------------------------------------------------------------- numbering

  /** The numbers of all abstractions in an annotated expression, in prefix order. */
  function FunctionNumbers(a: TAnn): seq<nat>
    decreases a, 1
  {
    match a.a
    case AAbstraction(body, n) => [n] + FunctionNumbers(body)
    case AApplyOp(_, _, args) => FunctionNumbersOf(args)
    case AApplyAbs(f, args) => FunctionNumbers(f) + FunctionNumbersOf(args)
    case AArgList(elems) => FunctionNumbersOf(elems)
    case ACounterDef(_, e) => FunctionNumbers(e)
    case AMemoryDef(_, e) => FunctionNumbers(e)
    case _ => []
  }

  function FunctionNumbersOf(anns: seq<TAnn>): seq<nat>
    decreases anns, 0
  {
    if anns == [] then [] else FunctionNumbers(anns[0]) + FunctionNumbersOf(anns[1..])
  }

  function Range(lo: nat, hi: nat): (r: seq<nat>)
    requires lo <= hi
    ensures |r| == hi - lo
    ensures forall i | 0 <= i < |r| :: r[i] == lo + 1 + i
  {
    seq(hi - lo, i requires 0 <= i < hi - lo => lo + 1 + i)
  }

  /** The annotation holds no abstraction that was refused. */
  predicate NoFunctionError(a: TAnn)
    decreases a
  {
    match a.a
    case AFunctionError => false
    case AAbstraction(body, _) => NoFunctionError(body)
    case AApplyOp(_, _, args) => forall i | 0 <= i < |args| :: NoFunctionError(args[i])
    case AApplyAbs(f, args) => NoFunctionError(f) && forall i | 0 <= i < |args| :: NoFunctionError(args[i])
    case AArgList(elems) => forall i | 0 <= i < |elems| :: NoFunctionError(elems[i])
    case ACounterDef(_, e) => NoFunctionError(e)
    case AMemoryDef(_, e) => NoFunctionError(e)
    case _ => true
  }

  /** All abstractions of a query get distinct numbers, and together they use up the counter. */
  lemma {:induction false} Numbering(cx: Context, e: Expr, st: State, fa: seq<TypedArg>)
    requires st.tables.Valid()
    requires var r := Annotate(cx, e, st, fa).0; r.Done? && NoFunctionError(r.v)
    ensures var (r, st') := Annotate(cx, e, st, fa);
            st.functionno <= st'.functionno && FunctionNumbers(r.v) == Range(st.functionno, st'.functionno)
    decreases e, 1
  {
    match e
    case Const(_) =>
    case Sym(_) =>
    case FunObj(_, def) =>
      Numbering(cx, def, st.AddValue(ValueEntry(0, false, true)).(tables := EMPTYTABLES), []);
    case Fun(ps, body) => FunNumbering(cx, ps, body, st, fa);
    case List(es) =>
      if es != [] { ListNumbering(cx, es, st, fa); }
    case Counter(no, e1) => Numbering(cx, e1, st.AddValue(ValueEntry(no, true, false)), fa);
    case Memory(size, e1) => Numbering(cx, e1, st.AddValue(ValueEntry(size, true, false)), fa);
  }

  lemma {:induction false} FunNumbering(cx: Context, ps: seq<Param>, body: Expr, st: State, fa: seq<TypedArg>)
    requires st.tables.Valid()
    requires var r := Annotate(cx, Fun(ps, body), st, fa).0; r.Done? && NoFunctionError(r.v)
    ensures var (r, st') := Annotate(cx, Fun(ps, body), st, fa);
            st.functionno <= st'.functionno && FunctionNumbers(r.v) == Range(st.functionno, st'.functionno)
    decreases body, 2
  {
    FunUnfolds(cx, ps, body, st, fa);
    var st1 := InBody(cx, ps, st, fa);
    Numbering(cx, body, st1, fa);
    RangeCons(st1.functionno, Annotate(cx, body, st1, fa).1.functionno);
  }

  /** The state in which the body of a function is annotated. */
  function InBody(cx: Context, ps: seq<Param>, st: State, fa: seq<TypedArg>): State {
    var n := st.functionno + 1;
    st.(functionno := n, tables := TablesAfterParams(cx, ps, fa, st.tables, 1, n))
  }

  lemma FunUnfolds(cx: Context, ps: seq<Param>, body: Expr, st: State, fa: seq<TypedArg>)
    requires st.tables.Valid()
    requires var r := Annotate(cx, Fun(ps, body), st, fa).0; r.Done? && NoFunctionError(r.v)
    ensures var st1 := InBody(cx, ps, st, fa);
            var (r, st') := Annotate(cx, Fun(ps, body), st, fa);
            && st1.tables.Valid()
            && var (b, st2) := Annotate(cx, body, st1, fa);
               && b.Done? && NoFunctionError(b.v) && r.v.a == AAbstraction(b.v, st1.functionno) && st' == st2
  {
    EnterParamsValid(cx, ps, fa, st.tables, 1, st.functionno + 1);
  }

  lemma RangeCons(n: nat, m: nat)
    requires 0 < n <= m
    ensures [n] + Range(n, m) == Range(n - 1, m)
  {}

  lemma {:induction false} ListNumbering(cx: Context, es: seq<Expr>, st: State, fa: seq<TypedArg>)
    requires st.tables.Valid() && es != []
    requires var r := Annotate(cx, List(es), st, fa).0; r.Done? && NoFunctionError(r.v)
    ensures var (r, st') := Annotate(cx, List(es), st, fa);
            st.functionno <= st'.functionno && FunctionNumbers(r.v) == Range(st.functionno, st'.functionno)
    decreases es, 1
  {
    var (r, st1) := AnnotateElems(cx, es, st, fa, false, []);
    NumberingCombine(cx, es, r.v, st1);
    CombineGrows(cx, es, r.v, st1);
    NumberingOfElems(cx, es, st, fa, false, []);
  }

  lemma {:induction false} NumberingOfElems(cx: Context, es: seq<Expr>, st: State, fa: seq<TypedArg>, isOp: bool,
                                            before: seq<TypedArg>)
    requires st.tables.Valid()
    requires var r := AnnotateElems(cx, es, st, fa, isOp, before).0;
             r.Done? && forall i | 0 <= i < |r.v| :: NoFunctionError(r.v[i])
    ensures var (r, st') := AnnotateElems(cx, es, st, fa, isOp, before);
            st.functionno <= st'.functionno && FunctionNumbersOf(r.v) == Range(st.functionno, st'.functionno)
    decreases es, 0
  {
    if es != [] {
      var (all, st2) := AnnotateElems(cx, es, st, fa, isOp, before);
      var a, st1, rest, isOp', before' := ElemsCons(cx, es, st, fa, isOp, before);
      assert all.v[0] == a && all.v[1..] == rest;
      forall i | 0 <= i < |rest| ensures NoFunctionError(rest[i]) { assert rest[i] == all.v[i + 1]; }
      Numbering(cx, es[0], st, if isOp then before else fa);
      NumberingOfElems(cx, es[1..], st1, fa, isOp', before');
      assert Range(st.functionno, st1.functionno) + Range(st1.functionno, st2.functionno)
          == Range(st.functionno, st2.functionno);
    }
  }

  lemma {:induction false} ConstsHaveNoFunctions(cs: seq<Constant>, st: State)
    ensures FunctionNumbersOf(AnnotateConsts(cs, st).0) == []
    decreases |cs|
  {
    if cs != [] {
      var (a, st1) := AnnotateConst(cs[0], st);
      ConstsHaveNoFunctions(cs[1..], st1);
      assert AnnotateConsts(cs, st).0[1..] == AnnotateConsts(cs[1..], st1).0;
    }
  }

  lemma {:induction false} NumbersOfConcat(a: seq<TAnn>, b: seq<TAnn>)
    ensures FunctionNumbersOf(a + b) == FunctionNumbersOf(a) + FunctionNumbersOf(b)
    decreases |a|
  {
    if a == [] {
      assert a + b == b;
    } else {
      assert (a + b)[1..] == a[1..] + b;
      NumbersOfConcat(a[1..], b);
    }
  }

  lemma {:induction false} NumberingCombine(cx: Context, es: seq<Expr>, anns: seq<TAnn>, st: State)
    requires |anns| == |es| > 0
    requires Combine(cx, es, anns, st).0.Done?
    ensures FunctionNumbers(Combine(cx, es, anns, st).0.v) == FunctionNumbersOf(anns)
    ensures NoFunctionError(Combine(cx, es, anns, st).0.v) ==>
              forall i | 0 <= i < |anns| :: NoFunctionError(anns[i])
  {
    var r := Combine(cx, es, anns, st).0.v;
    assert FunctionNumbersOf(anns) == FunctionNumbers(anns[0]) + FunctionNumbersOf(anns[1..]);
    match anns[0].a
    case AOperator(_, cands) =>
      var res := Resolve(cx, cands, Pairs(anns[1..], es[1..]), true);
      var extra := AnnotateConsts(Extra(res.result), st).0;
      ConstsHaveNoFunctions(Extra(res.result), st);
      NumbersOfConcat(anns[1..], extra);
      forall i | 1 <= i < |anns| && NoFunctionError(r) ensures NoFunctionError(anns[i]) {
        assert (anns[1..] + extra)[i - 1] == anns[i];
      }
    case AAbstraction(_, _) =>
      forall i | 1 <= i < |anns| && NoFunctionError(r) ensures NoFunctionError(anns[i]) {
        assert anns[1..][i - 1] == anns[i];
      }
    case _ =>
  }
}
