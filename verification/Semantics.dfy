/**
 The direct meaning of queries. Types and values are read off the query itself with lexical
 environments that map names to types and to words: no numbering, no tables that outlive a
 scope, no argument vectors and no trees. This is what annotation, tree building and
 evaluation together have to implement.
 */
module Semantics {
  import opened QueryTerms
  import opened Annotation

  type TypeEnv = map<string, Type>
  type ValueEnv = map<string, Word>

  function Bind<T>(env: map<string, T>, ps: seq<Param>, vs: seq<T>): map<string, T>
    requires |ps| == |vs|
    decreases |ps|
  {
    if ps == [] then env else Bind(env[ps[0].name := vs[0]], ps[1..], vs[1..])
  }

  /** A symbol means an operator if neither a parameter nor an object has that name. */
  predicate MeansOperator(cx: Context, e: Expr, g: TypeEnv) {
    e.Sym? && e.name !in g && e.name !in cx.cat.objects && e.name in cx.cat.operators
  }

  predicate MeansFunction(e: Expr) { e.Fun? || e.FunObj? }

  function TypeOfSym(cx: Context, x: string, g: TypeEnv): Type {
    if x in g then g[x]
    else if x in cx.cat.objects then cx.cat.objects[x].ty
    else if x in cx.cat.operators || cx.cat.isTypeName(x) then TYPEERROR
    else TSym(x)
  }

  /** The type of `e`; `fa` are the arguments before it in an enclosing operator application. */
  function TypeOf(cx: Context, e: Expr, g: TypeEnv, fa: seq<TypedArg>): Type
    decreases e, 1
  {
    match e
    case Const(c) => if c.ok then c.ty else TYPEERROR
    case Sym(x) => TypeOfSym(cx, x, g)
    case FunObj(_, def) => TypeOf(cx, def, map[], [])
    case Fun(ps, body) =>
      var ts := ParamTypes(cx, ps, fa);
      MapType(ts, TypeOf(cx, body, Bind(g, ps, ts), fa))
    case List(es) =>
      if es == [] then TList([])
      else
        var ps := TypedElems(cx, es, g, fa, false, []);
        if MeansOperator(cx, es[0], g) then
          var cands := cx.cat.operators[es[0].name];
          if cands == [] then TYPEERROR else ResultType(Resolve(cx, cands, ps[1..], true).result)
        else if MeansFunction(es[0]) then
          if IsMap(ps[0].t) && MapParams(ps[0].t) == Types(ps[1..]) then MapResult(ps[0].t) else TYPEERROR
        else TList(Types(ps))
    case Counter(no, e1) => if 0 < no <= NOCOUNTERS then TypeOf(cx, e1, g, fa) else TYPEERROR
    case Memory(_, e1) => TypeOf(cx, e1, g, fa)
  }

  /** The elements of a list with their types. */
  function TypedElems(cx: Context, es: seq<Expr>, g: TypeEnv, fa: seq<TypedArg>, isOp: bool,
                      before: seq<TypedArg>): (r: seq<TypedArg>)
    ensures |r| == |es|
    ensures forall i | 0 <= i < |es| :: r[i].e == es[i]
    decreases es, 0
  {
    if es == [] then []
    else
      var p := TypedArg(TypeOf(cx, es[0], g, if isOp then before else fa), es[0]);
      var isOp' := if before == [] then MeansOperator(cx, es[0], g) else isOp;
      [p] + TypedElems(cx, es[1..], g, fa, isOp', before + [p])
  }

  /** What element `i` of an operator application knows about the elements before it. */
  function ElemContext(cx: Context, es: seq<Expr>, g: TypeEnv, fa: seq<TypedArg>, i: nat): seq<TypedArg>
    requires i < |es|
  {
    if i > 0 && MeansOperator(cx, es[0], g) then TypedElems(cx, es, g, fa, false, [])[..i] else fa
  }

  /** The value of an expression whose type is a value type. */
  ghost function ValueOf(cx: Context, e: Expr, g: TypeEnv, env: ValueEnv, fa: seq<TypedArg>): Word
    decreases e, 2
  {
    match e
    case Const(c) => c.w
    case Sym(x) => if x in env then env[x] else if x in cx.cat.objects then cx.cat.objects[x].w else 0
    case FunObj(_, _) => 0
    case Fun(_, _) => 0
    case List(es) =>
      if es == [] then 0
      else if MeansOperator(cx, es[0], g) && cx.cat.operators[es[0].name] != [] then
        var ps := TypedElems(cx, es, g, fa, false, [])[1..];
        var r := Resolve(cx, cx.cat.operators[es[0].name], ps, true);
        var extra := Extra(r.result);
        var args := ArgumentsOf(cx, e, extra, cx.alg.requestsArgs(r.key), g, env, fa);
        ValueOfProgram(cx, cx.alg.valueMap(r.key, cx.alg.select(r.key, Types(ps)), args), e, extra, g, env, fa)
      else if MeansFunction(es[0]) then
        var ws := seq(|es| - 1, i requires 0 <= i < |es| - 1 => ValueOf(cx, es[i + 1], g, env, fa));
        ValueOfCall(cx, es[0], ws, g, env, fa)
      else 0
    case Counter(_, e1) => ValueOf(cx, e1, g, env, fa)
    case Memory(_, e1) => ValueOf(cx, e1, g, env, fa)
  }

  /** What an operator finds in its argument vector, behind its own arguments the appended constants. */
  ghost function ArgumentsOf(cx: Context, e: Expr, extra: seq<Constant>, requests: bool,
                             g: TypeEnv, env: ValueEnv, fa: seq<TypedArg>): (r: seq<Arg>)
    requires e.List? && e.elems != []
    ensures |r| == |e.elems| - 1 + |extra|
    decreases e, 1
  {
    var es := e.elems;
    var ps := TypedElems(cx, es, g, fa, false, [])[1..];
    seq(|ps| + |extra|, i requires 0 <= i < |ps| + |extra| =>
      if requests then Supplier
      else if i >= |ps| then Val(extra[i - |ps|].w)
      else if IsValueType(cx, ps[i].t)
        then Val(ValueOf(cx, es[i + 1], g, env, ElemContext(cx, es, g, fa, i + 1)))
      else Supplier)
  }

  /** The value an operator computes, its requests answered by the arguments of `e`. */
  ghost function ValueOfProgram(cx: Context, p: Program, e: Expr, extra: seq<Constant>,
                                g: TypeEnv, env: ValueEnv, fa: seq<TypedArg>): Word
    requires Terminates(p) && e.List? && e.elems != []
    decreases e, 1, p.Rank()
  {
    match p
    case Return(w) => w
    case Ask(_, i, ws, cont) =>
      var n := |e.elems| - 1;
      var answer :=
        if i < n then ValueOfCall(cx, e.elems[i + 1], ws, g, env, ElemContext(cx, e.elems, g, fa, i + 1))
        else if i < n + |extra| then extra[i - n].w
        else 0;
      ValueOfProgram(cx, cont(answer), e, extra, g, env, fa)
  }

  /** A function applied to `ws` in the environment it was written in; else the plain value. */
  ghost function ValueOfCall(cx: Context, e: Expr, ws: seq<Word>, g: TypeEnv, env: ValueEnv,
                             fa: seq<TypedArg>): Word
    decreases e, 3
  {
    match e
    case Fun(ps, body) =>
      if |ws| != |ps| then 0
      else ValueOf(cx, body, Bind(g, ps, ParamTypes(cx, ps, fa)), Bind(env, ps, ws), fa)
    case FunObj(_, def) => ValueOfCall(cx, def, ws, map[], map[], [])
    case Counter(_, e1) => ValueOfCall(cx, e1, ws, g, env, fa)
    case Memory(_, e1) => ValueOfCall(cx, e1, ws, g, env, fa)
    case _ => ValueOf(cx, e, g, env, fa)
  }

  // -------------------------------------------------- what is asked of queries

  /** All parameter names of a query; those of stored function objects are not its own. */
  function Binders(e: Expr): set<string>
    decreases e, 1
  {
    match e
    case Fun(ps, body) => ParamNames(ps) + Binders(body)
    case List(es) => BindersOf(es)
    case Counter(_, e1) => Binders(e1)
    case Memory(_, e1) => Binders(e1)
    case _ => {}
  }

  function BindersOf(es: seq<Expr>): set<string>
    decreases es, 0
  {
    if es == [] then {} else Binders(es[0]) + BindersOf(es[1..])
  }

  function ParamNames(ps: seq<Param>): set<string> {
    set i | 0 <= i < |ps| :: ps[i].name
  }

  /**
   Lexically scoped: a name that is, or earlier was, a parameter occurs only where that
   parameter is visible, and no parameter has the name of an object. `seen` are the names
   bound anywhere to the left.
   */
  predicate Scoped(cx: Context, e: Expr, scope: set<string>, seen: set<string>)
    decreases e, 1
  {
    match e
    case Const(_) => true
    case Sym(x) => x in seen && x !in scope ==> x in cx.cat.objects || x in cx.cat.operators
    case FunObj(_, def) => Scoped(cx, def, {}, {})
    case Fun(ps, body) =>
      && (forall i | 0 <= i < |ps| :: ps[i].name !in cx.cat.objects)
      && Scoped(cx, body, scope + ParamNames(ps), seen + ParamNames(ps))
    case List(es) => ScopedElems(cx, es, scope, seen)
    case Counter(_, e1) => Scoped(cx, e1, scope, seen)
    case Memory(_, e1) => Scoped(cx, e1, scope, seen)
  }

  predicate ScopedElems(cx: Context, es: seq<Expr>, scope: set<string>, seen: set<string>)
    decreases es, 0
  {
    es == [] || (Scoped(cx, es[0], scope, seen) && ScopedElems(cx, es[1..], scope, seen + Binders(es[0])))
  }

  /** In functions made values of the stated types, and stored function objects are functions. */
  predicate WellFormed(cx: Context, e: Expr) {
    match e
    case Const(c) => c.ok ==> IsValueType(cx, c.ty) && cx.alg.hasType(c.w, c.ty)
    case Sym(_) => true
    case FunObj(_, def) => def.Fun? && WellFormed(cx, def)
    case Fun(_, body) => WellFormed(cx, body)
    case List(es) => forall i | 0 <= i < |es| :: WellFormed(cx, es[i])
    case Counter(_, e1) => WellFormed(cx, e1)
    case Memory(_, e1) => WellFormed(cx, e1)
  }
}
