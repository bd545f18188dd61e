/**
 The vocabulary of the query processor: type expressions, query expressions, annotated
 expressions, operator trees, and the two collaborators the query processor asks for
 everything it does not know itself, the catalog and the algebras.
 */
module QueryTerms {

  // An argument vector has this many slots, and so has the list of sons of a node.
  const MAXARG: nat := 100

  // The highest arity for which argument slots and stream slots of one vector stay apart.
  const MAXPLAIN: nat := MAXARG / 2

  // Counter numbers accepted by a counter definition run from 1 to this one.
  const NOCOUNTERS: nat := 16

  // The packing base of operator and function index in an opFunId.
  const OPBASE: int := 65536

  // The query processor moves addresses around without looking behind them; 0 is null.
  type Word = int

  /** Type expressions are nested lists of symbols and numbers. */
  datatype Type = TSym(name: string) | TInt(n: int) | TList(elems: seq<Type>)

  const TYPEERROR := TSym("typeerror")

  function MapType(params: seq<Type>, result: Type): Type {
    TList([TSym("map")] + params + [result])
  }

  predicate IsMap(t: Type) {
    t.TList? && |t.elems| >= 2 && t.elems[0] == TSym("map")
  }

  function MapParams(t: Type): seq<Type>
    requires IsMap(t)
  {
    t.elems[1..|t.elems| - 1]
  }

  function MapResult(t: Type): Type
    requires IsMap(t)
  {
    t.elems[|t.elems| - 1]
  }

  predicate IsStream(t: Type) {
    t.TList? && |t.elems| >= 1 && t.elems[0] == TSym("stream")
  }

  /** No part of the type expression is the symbol `typeerror`. */
  predicate Clean(t: Type) {
    match t
    case TSym(n) => n != "typeerror"
    case TInt(_) => true
    case TList(ts) => forall i | 0 <= i < |ts| :: Clean(ts[i])
  }

  /** The value an In function makes of a literal; `ok` is false when it rejects it. */
  datatype Constant = Constant(ty: Type, w: Word, ok: bool)

  datatype Param = Param(name: string, ptype: Type)

  /**
   Query expressions. A symbol naming a stored function object carries the definition the
   catalog holds for it, so nesting of function objects is finite.
   */
  datatype Expr =
    | Const(c: Constant)
    | Sym(name: string)
    | FunObj(name: string, def: Expr)
    | Fun(params: seq<Param>, body: Expr)
    | List(elems: seq<Expr>)
    | Counter(no: int, e: Expr)
    | Memory(size: int, e: Expr)

  /** An argument as a type mapping sees it: its type and the expression itself. */
  datatype TypedArg = TypedArg(t: Type, e: Expr)

  /** The types of the elements, which `f` tells. */
  function TypesBy<T>(s: seq<T>, f: T -> Type): (r: seq<Type>)
    ensures |r| == |s|
  {
    seq(|s|, i requires 0 <= i < |s| => f(s[i]))
  }

  function Types(ps: seq<TypedArg>): seq<Type> { TypesBy(ps, (p: TypedArg) => p.t) }

  function ConstTypes(cs: seq<Constant>): seq<Type> { TypesBy(cs, (c: Constant) => c.ty) }

  // ----------------------------------------------------------------- operators

  /** An operator inside an algebra. */
  datatype OpKey = OpKey(alg: nat, op: nat)

  datatype TypeMapResult =
    | Rejected
    | Mapped(result: Type)
    | Append(extra: seq<Constant>, result: Type)

  /** What a value mapping finds in its argument vector: a value, or the node of a son. */
  datatype Arg = Val(w: Word) | Supplier

  /**
   What a value mapping does: it returns a word, or it loads `args` into the argument vector
   of a son, requests that son, and goes on with the answer. `rank` bounds the requests that
   may still follow, whatever the answers.
   */
  datatype Program =
    | Return(w: Word)
    | Ask(rank: ORDINAL, son: nat, args: seq<Word>, cont: Word -> Program)
  {
    ghost function Rank(): ORDINAL { if Return? then 0 else rank }
  }

  ghost predicate Terminates(p: Program)
    decreases p.Rank()
  {
    p.Ask? ==> forall w: Word :: p.cont(w).Rank() < p.rank && Terminates(p.cont(w))
  }

  type Mapping = p: Program | Terminates(p) witness Return(0)

  /** The algebra manager: everything an operator or a type constructor brings with it. */
  datatype Algebra = Algebra(
    usesArgs: OpKey -> bool,
    typeMap: (OpKey, seq<Type>) -> TypeMapResult,
    typeArgMap: (OpKey, seq<TypedArg>) -> TypeMapResult,
    excluded: OpKey -> bool,
    select: (OpKey, seq<Type>) -> int,
    requestsArgs: OpKey -> bool,
    usesMemory: OpKey -> bool,
    valueMap: (OpKey, int, seq<Arg>) -> Mapping,
    hasType: (Word, Type) -> bool)

  datatype ObjectInfo = ObjectInfo(ty: Type, w: Word, isDefined: bool)

  /** The catalog as queries see it. */
  datatype Catalog = Catalog(
    objects: map<string, ObjectInfo>,
    operators: map<string, seq<OpKey>>,
    types: map<string, Type>,
    isType: Type -> bool,
    isTypeName: string -> bool)

  datatype Context = Context(cat: Catalog, alg: Algebra)

  /** A type whose instances are words: neither a function nor a stream nor an identifier. */
  predicate IsValueType(cx: Context, t: Type) {
    cx.cat.isType(t) && !IsMap(t) && !IsStream(t)
  }

  /** A function the evaluator can call: words in, a word out, and few enough parameters. */
  predicate Callable(cx: Context, t: Type) {
    && IsMap(t)
    && |MapParams(t)| <= MAXPLAIN
    && IsValueType(cx, MapResult(t))
    && forall i | 0 <= i < |MapParams(t)| :: IsValueType(cx, MapParams(t)[i])
  }

  // ------------------------------------------------------ annotated expressions

  datatype Ann =
    | AConst(valNo: nat)
    | AObject(name: string, valNo: nat)
    | AVariable(name: string, position: nat, funindex: nat)
    | AOperator(name: string, cands: seq<OpKey>)
    | AIdentifier(name: string)
    | AApplyOp(alg: nat, opFunId: int, args: seq<TAnn>)
    | AAbstraction(body: TAnn, funNo: nat)
    | AApplyAbs(abs: TAnn, args: seq<TAnn>)
    | AArgList(elems: seq<TAnn>)
    | ACounterDef(no: int, e: TAnn)
    | AMemoryDef(size: int, e: TAnn)
    | AFunctionError

  /** The pair of an annotation and the type found for it. */
  datatype TAnn = TAnn(a: Ann, t: Type)

  function AnnTypes(args: seq<TAnn>): seq<Type> { TypesBy(args, (a: TAnn) => a.t) }

  // ------------------------------------------------------------- operator trees

  datatype Kind =
    | KObject(value: Word)
    | KIndirect(funNumber: nat, argIndex: nat)
    | KOperator(alg: nat, opFunId: int, sons: seq<OpNode>)
    | KHalt // the tree builder gives up and ends the process

  datatype OpNode = OpNode(
    kind: Kind,
    typeExpr: Type,
    evaluable: bool,
    isFun: bool,
    funNo: nat,
    counterNo: int,
    usesMemory: bool,
    memorySize: nat)
  {
    predicate IsAbstraction() {
      kind.KOperator? && kind.alg == 0 && kind.opFunId == 0
    }
  }
}
