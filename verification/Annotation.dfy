/**
 What annotation computes, as functions from the state of the query processor before a call
 to its result and the state afterwards. The imperative query processor is proved equal to
 these functions; every promise about annotation is then a lemma about them.
 */
module Annotation {
  import opened QueryTerms

  /** `ExprError` is the symbol exprerror, `Throw` an exception that ends annotation. */
  datatype Outcome<+T> = Done(v: T) | ExprError | Throw

  datatype VarEntry = VarEntry(position: nat, funindex: nat, typeexpr: Type)

  /** The name index and the table of variables. Names are entered, never removed. */
  datatype Tables = Tables(names: map<string, nat>, entries: seq<VarEntry>)
  {
    predicate Valid() {
      forall x | x in names :: names[x] < |entries|
    }

    predicate IsVariable(x: string) { x in names }

    function GetVariable(x: string): VarEntry
      requires Valid() && IsVariable(x)
    {
      entries[names[x]]
    }

    function EnterVariable(x: string, e: VarEntry): Tables {
      Tables(names[x := |entries|], entries + [e])
    }
  }

  const EMPTYTABLES := Tables(map[], [])

  datatype ValueEntry = ValueEntry(value: Word, isConstant: bool, isList: bool)

  datatype State = State(values: seq<ValueEntry>, functionno: nat, tables: Tables, isDefined: bool)
  {
    function AddValue(v: ValueEntry): State {
      this.(values := values + [v])
    }
  }

  // ------------------------------------------------------------- overloading

  function TryOp(cx: Context, key: OpKey, ps: seq<TypedArg>): TypeMapResult {
    var r := if cx.alg.usesArgs(key) then cx.alg.typeArgMap(key, ps) else cx.alg.typeMap(key, Types(ps));
    if r == Mapped(TYPEERROR) || cx.alg.excluded(key) then Rejected else r
  }

  /** The candidates before `k` reject the arguments and candidate `k` accepts them. */
  ghost predicate FirstAccepting(cx: Context, cands: seq<OpKey>, ps: seq<TypedArg>, k: nat) {
    && k < |cands|
    && !TryOp(cx, cands[k], ps).Rejected?
    && forall i | 0 <= i < k :: TryOp(cx, cands[i], ps).Rejected?
  }

  datatype Resolution = Resolution(key: OpKey, result: TypeMapResult, opFunId: int)

  /** Tests the candidates in order; the last one stays selected when all reject. */
  function Resolve(cx: Context, cands: seq<OpKey>, ps: seq<TypedArg>, checkFunId: bool): Resolution
    requires cands != []
    decreases |cands|
  {
    var r := TryOp(cx, cands[0], ps);
    if r.Rejected? && |cands| > 1 then Resolve(cx, cands[1..], ps, checkFunId)
    else if r.Rejected? || !checkFunId then Resolution(cands[0], r, 0)
    else
      var opFunId := cx.alg.select(cands[0], Types(ps)) * OPBASE + cands[0].op;
      Resolution(cands[0], if opFunId < 0 then Rejected else r, opFunId)
  }

  function ResultType(r: TypeMapResult): Type {
    if r.Rejected? then TYPEERROR else r.result
  }

  function Extra(r: TypeMapResult): seq<Constant> {
    if r.Append? then r.extra else []
  }

  // -------------------------------------------------------------- parameters

  function Rest<T>(s: seq<T>): seq<T> {
    if s == [] then [] else s[1..]
  }

  /** A symbol given as parameter type may be a type name or a type operator. */
  function ParamType(cx: Context, t: Type, fa: seq<TypedArg>): Type {
    if t.TSym? && t.name in cx.cat.types then cx.cat.types[t.name]
    else if t.TSym? && t.name in cx.cat.operators then
      var cands := cx.cat.operators[t.name];
      if cands == [] then TYPEERROR
      else
        var r := Resolve(cx, cands, Rest(fa), false).result;
        if r.Mapped? then r.result else TYPEERROR
    else t
  }

  predicate ParamTypeOk(cx: Context, t: Type) {
    if IsStream(t) && |t.elems| >= 2 then cx.cat.isType(t.elems[1]) else cx.cat.isType(t)
  }

  function ParamTypes(cx: Context, ps: seq<Param>, fa: seq<TypedArg>): (r: seq<Type>)
    ensures |r| == |ps|
  {
    seq(|ps|, i requires 0 <= i < |ps| => ParamType(cx, ps[i].ptype, fa))
  }

  /** Enters the parameters from `ps` on, the first of them at `position`; none on an error. */
  function EnterParams(cx: Context, ps: seq<Param>, fa: seq<TypedArg>, tb: Tables,
                       position: nat, funindex: nat): Outcome<Tables>
    decreases |ps|
  {
    if ps == [] then Done(tb)
    else
      var x := ps[0].name;
      var t := ParamType(cx, ps[0].ptype, fa);
      if tb.IsVariable(x) || x in cx.cat.operators || !ParamTypeOk(cx, t) then ExprError
      else EnterParams(cx, ps[1..], fa, tb.EnterVariable(x, VarEntry(position, funindex, t)),
                       position + 1, funindex)
  }

  /** The tables as they are left behind, also when a parameter is refused. */
  function TablesAfterParams(cx: Context, ps: seq<Param>, fa: seq<TypedArg>, tb: Tables,
                             position: nat, funindex: nat): (r: Tables)
    ensures EnterParams(cx, ps, fa, tb, position, funindex).Done? ==>
              r == EnterParams(cx, ps, fa, tb, position, funindex).v
    decreases |ps|
  {
    if ps == [] then tb
    else
      var x := ps[0].name;
      var t := ParamType(cx, ps[0].ptype, fa);
      if tb.IsVariable(x) || x in cx.cat.operators || !ParamTypeOk(cx, t) then tb
      else TablesAfterParams(cx, ps[1..], fa, tb.EnterVariable(x, VarEntry(position, funindex, t)),
                             position + 1, funindex)
  }

  // -------------------------------------------------------------- annotation

  function Err(a: Ann): Outcome<TAnn> { Done(TAnn(a, TYPEERROR)) }

  function AnnotateConst(c: Constant, st: State): (TAnn, State) {
    if c.ok then (TAnn(AConst(|st.values|), c.ty), st.AddValue(ValueEntry(c.w, true, false)))
    else (TAnn(AConst(0), TYPEERROR), st)
  }

  function AnnotateConsts(cs: seq<Constant>, st: State): (r: (seq<TAnn>, State))
    ensures |r.0| == |cs|
    decreases |cs|
  {
    if cs == [] then ([], st)
    else
      var (a, st1) := AnnotateConst(cs[0], st);
      var (rest, st2) := AnnotateConsts(cs[1..], st1);
      ([a] + rest, st2)
  }

  function AnnotateSym(cx: Context, x: string, st: State): (Outcome<TAnn>, State)
    requires st.tables.Valid()
  {
    if x in cx.cat.objects then
      var o := cx.cat.objects[x];
      (Done(TAnn(AObject(x, |st.values|), o.ty)),
       st.AddValue(ValueEntry(o.w, false, false)).(isDefined := st.isDefined && o.isDefined))
    else if x in cx.cat.operators then (Err(AOperator(x, cx.cat.operators[x])), st)
    else if st.tables.IsVariable(x) then
      var v := st.tables.GetVariable(x);
      (Done(TAnn(AVariable(x, v.position, v.funindex), v.typeexpr)), st)
    else if cx.cat.isTypeName(x) then (Throw, st)
    else (Done(TAnn(AIdentifier(x), TSym(x))), st)
  }

  function Pairs(anns: seq<TAnn>, es: seq<Expr>): (r: seq<TypedArg>)
    requires |anns| == |es|
    ensures |r| == |es|
  {
    seq(|es|, i requires 0 <= i < |es| => TypedArg(anns[i].t, es[i]))
  }

  /** What becomes of a non-empty list once its elements are annotated. */
  function Combine(cx: Context, es: seq<Expr>, anns: seq<TAnn>, st: State): (Outcome<TAnn>, State)
    requires |anns| == |es| > 0
  {
    var args := Pairs(anns[1..], es[1..]);
    match anns[0].a
    case AOperator(name, cands) =>
      if cands == [] then (Throw, st)
      else
        var r := Resolve(cx, cands, args, true);
        var (extra, st1) := AnnotateConsts(Extra(r.result), st);
        (Done(TAnn(AApplyOp(r.key.alg, r.opFunId, anns[1..] + extra), ResultType(r.result))), st1)
    case AAbstraction(_, _) =>
      if IsMap(anns[0].t) && MapParams(anns[0].t) == Types(args)
      then (Done(TAnn(AApplyAbs(anns[0], anns[1..]), MapResult(anns[0].t))), st)
      else (ExprError, st)
    case AFunctionError => (ExprError, st)
    case _ =>
      (Done(TAnn(AArgList(anns), TList(seq(|anns|, i requires 0 <= i < |anns| => anns[i].t)))), st)
  }

  function Annotate(cx: Context, e: Expr, st: State, fa: seq<TypedArg>): (r: (Outcome<TAnn>, State))
    requires st.tables.Valid()
    ensures r.1.tables.Valid()
    decreases e, 1
  {
    match e
    case Const(c) => var (a, st1) := AnnotateConst(c, st); (Done(a), st1)
    case Sym(x) => AnnotateSym(cx, x, st)
    case FunObj(_, def) =>
      var st1 := st.AddValue(ValueEntry(0, false, true)).(tables := EMPTYTABLES);
      var (r, st2) := Annotate(cx, def, st1, []);
      (r, st2.(tables := st.tables))
    case Fun(ps, body) =>
      var n := st.functionno + 1;
      var st1 := st.(functionno := n, tables := TablesAfterParams(cx, ps, fa, st.tables, 1, n));
      EnterParamsValid(cx, ps, fa, st.tables, 1, n);
      if !EnterParams(cx, ps, fa, st.tables, 1, n).Done? then (Err(AFunctionError), st1)
      else
        var (r, st2) := Annotate(cx, body, st1, fa);
        (CloseFunction(r, ParamTypes(cx, ps, fa), n), st2)
    case List(es) =>
      if es == [] then (Done(TAnn(AArgList([]), TList([]))), st)
      else
        var (r, st1) := AnnotateElems(cx, es, st, fa, false, []);
        if r.Done? then CombineKeepsTables(cx, es, r.v, st1); Combine(cx, es, r.v, st1)
        else (if r.Throw? then Throw else ExprError, st1)
    case Counter(no, e1) =>
      var (r, st1) := Annotate(cx, e1, st.AddValue(ValueEntry(no, true, false)), fa);
      (if r.Done? then Done(TAnn(ACounterDef(no, r.v), if 0 < no <= NOCOUNTERS then r.v.t else TYPEERROR)) else r, st1)
    case Memory(size, e1) =>
      var (r, st1) := Annotate(cx, e1, st.AddValue(ValueEntry(size, true, false)), fa);
      (if r.Done? then Done(TAnn(AMemoryDef(size, r.v), r.v.t)) else r, st1)
  }

  /** The annotation of an abstraction; an exprerror in its body becomes a function error. */
  function CloseFunction(body: Outcome<TAnn>, params: seq<Type>, funNo: nat): Outcome<TAnn> {
    match body
    case Throw => Throw
    case ExprError => Err(AFunctionError)
    case Done(b) => Done(TAnn(AAbstraction(b, funNo), MapType(params, b.t)))
  }

  /**
   Annotates the elements of a list from left to right. `before` holds the elements already
   annotated. Behind an operator (`isOp`) each element is told the elements before it;
   otherwise it inherits `fa`.
   */
  function AnnotateElems(cx: Context, es: seq<Expr>, st: State, fa: seq<TypedArg>, isOp: bool,
                         before: seq<TypedArg>): (r: (Outcome<seq<TAnn>>, State))
    requires st.tables.Valid()
    ensures r.1.tables.Valid()
    ensures r.0.Done? ==> |r.0.v| == |es|
    decreases es, 0
  {
    if es == [] then (Done([]), st)
    else
      var (r, st1) := Annotate(cx, es[0], st, if isOp then before else fa);
      if r.Throw? then (Throw, st1)
      else if r.ExprError? then (ExprError, st1)
      else
        var (rs, st2) := AnnotateElems(cx, es[1..], st1, fa, if before == [] then r.v.a.AOperator? else isOp,
                                       before + [TypedArg(r.v.t, es[0])]);
        (if rs.Done? then Done([r.v] + rs.v) else rs, st2)
  }

  lemma {:induction false} EnterParamsValid(cx: Context, ps: seq<Param>, fa: seq<TypedArg>, tb: Tables,
                                            position: nat, funindex: nat)
    requires tb.Valid()
    ensures TablesAfterParams(cx, ps, fa, tb, position, funindex).Valid()
    decreases |ps|
  {
    if ps != [] {
      var t := ParamType(cx, ps[0].ptype, fa);
      EnterParamsValid(cx, ps[1..], fa, tb.EnterVariable(ps[0].name, VarEntry(position, funindex, t)),
                       position + 1, funindex);
    }
  }

  lemma {:induction false} AnnotateConstsState(cs: seq<Constant>, st: State)
    ensures var st1 := AnnotateConsts(cs, st).1;
            && st1 == st.(values := st1.values)
            && st.values <= st1.values
    decreases |cs|
  {
    if cs != [] {
      AnnotateConstsState(cs[1..], AnnotateConst(cs[0], st).1);
    }
  }

  lemma CombineKeepsTables(cx: Context, es: seq<Expr>, anns: seq<TAnn>, st: State)
    requires |anns| == |es| > 0
    requires st.tables.Valid()
    ensures Combine(cx, es, anns, st).1.tables == st.tables
  {
    match anns[0].a
    case AOperator(_, cands) =>
      if cands != [] {
        AnnotateConstsState(Extra(Resolve(cx, cands, Pairs(anns[1..], es[1..]), true).result), st);
      }
    case _ =>
  }
}
