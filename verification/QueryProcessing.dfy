/**
 The query processor itself: the object whose fields annotation and evaluation update. Its
 methods follow the program; each is tied to the function that says what it computes, and
 Eval is proved against the lexical meaning of the tree although all functions of a query
 share one mutable set of argument vectors.
 */
module QueryProcessing {
  import opened QueryTerms
  import opened Annotation
  import opened AnnotationState
  import opened OperatorTree
  import opened Semantics
  import opened TypedTrees
  import opened CompilerTypes
  import opened CompilerCorrectness
  import opened CompilerMeaning
  import opened QueryAcceptance

  /** How a query ends. `Function` is the tree of a function that computes something. */
  datatype QueryResult =
    | Value(w: Word, t: Type)
    | Function(t: Type)
    | ErrorInExpression
    | UndefinedObjectValue
    | NotEvaluable

  /** The functions that lie in a tree. */
  function Functions(node: OpNode): set<nat>
    decreases node, 1
  {
    (if node.isFun then {node.funNo} else {}) +
    (if node.kind.KOperator? then FunctionsOf(node.kind.sons) else {})
  }

  function FunctionsOf(sons: seq<OpNode>): set<nat>
    decreases sons, 0
  {
    if sons == [] then {} else Functions(sons[0]) + FunctionsOf(sons[1..])
  }

  lemma {:induction false} FunctionsOfSon(sons: seq<OpNode>, i: nat)
    requires i < |sons|
    ensures Functions(sons[i]) <= FunctionsOf(sons)
    decreases |sons|
  {
    if i > 0 {
      FunctionsOfSon(sons[1..], i - 1);
    }
  }

  /** Only vectors of functions in `fs` differ. */
  ghost predicate OnlyVectorsOf(v: Vectors, v': Vectors, fs: set<nat>) {
    |v'| == |v| && forall f | 1 <= f <= |v| && f !in fs :: v'[f - 1] == v[f - 1]
  }

  class QueryProcessor {
    const cx: Context
    var values: seq<ValueEntry>
    var functionno: nat
    var argVectors: seq<seq<Word>>

    constructor (cx: Context)
      ensures this.cx == cx
    {
      this.cx := cx;
      values, functionno, argVectors := [], 0, [];
    }

    ghost function StateWith(tb: Tables, isDefined: bool): State
      reads this
    {
      State(values, functionno, tb, isDefined)
    }

    // ------------------------------------------------------------- annotation

    method TestOverloadedOperators(cands: seq<OpKey>, ps: seq<TypedArg>, checkFunId: bool)
      returns (key: OpKey, result: TypeMapResult, opFunId: int)
      requires cands != []
      ensures Resolution(key, result, opFunId) == Resolve(cx, cands, ps, checkFunId)
    {
      var i := 0;
      key, result, opFunId := cands[0], TryOp(cx, cands[0], ps), 0;
      while result.Rejected? && i + 1 < |cands|
        invariant i < |cands| && key == cands[i] && result == TryOp(cx, cands[i], ps)
        invariant Resolve(cx, cands, ps, checkFunId) == Resolve(cx, cands[i..], ps, checkFunId)
        decreases |cands| - i
      {
        assert cands[i..][1..] == cands[i + 1..];
        i := i + 1;
        key, result := cands[i], TryOp(cx, cands[i], ps);
      }
      if !result.Rejected? && checkFunId {
        opFunId := cx.alg.select(key, Types(ps)) * OPBASE + key.op;
        if opFunId < 0 {
          result := Rejected;
        }
      }
    }

    method Annotate(e: Expr, tb: Tables, isDefined: bool, fa: seq<TypedArg>)
      returns (r: Outcome<TAnn>, tb': Tables, isDefined': bool)
      requires tb.Valid()
      modifies this`values, this`functionno
      ensures (r, StateWith(tb', isDefined')) == Annotation.Annotate(cx, e, old(StateWith(tb, isDefined)), fa)
      decreases e, 1
    {
      tb', isDefined' := tb, isDefined;
      match e
      case Const(c) =>
        var a := AnnotateConstant(c);
        r := Done(a);
      case Sym(x) =>
        if x in cx.cat.objects {
          var o := cx.cat.objects[x];
          values := values + [ValueEntry(o.w, false, false)];
          if !o.isDefined {
            isDefined' := false;
          }
          r := Done(TAnn(AObject(x, |values| - 1), o.ty));
        } else if x in cx.cat.operators {
          r := Err(AOperator(x, cx.cat.operators[x]));
        } else if tb.IsVariable(x) {
          var v := tb.GetVariable(x);
          r := Done(TAnn(AVariable(x, v.position, v.funindex), v.typeexpr));
        } else if cx.cat.isTypeName(x) {
          r := Throw;
        } else {
          r := Done(TAnn(AIdentifier(x), TSym(x)));
        }
      case FunObj(_, def) =>
        values := values + [ValueEntry(0, false, true)];
        var ignore;
        r, ignore, isDefined' := Annotate(def, EMPTYTABLES, isDefined, []);
      case Fun(ps, body) =>
        functionno := functionno + 1;
        var localfunctionno := functionno;
        var ok;
        ok, tb' := EnterParameters(ps, fa, tb, 1, localfunctionno);
        if !ok {
          r := Err(AFunctionError);
        } else {
          EnterParamsValid(cx, ps, fa, tb, 1, localfunctionno);
          r, tb', isDefined' := Annotate(body, tb', isDefined, fa);
          r := CloseFunction(r, ParamTypes(cx, ps, fa), localfunctionno);
        }
      case List(es) =>
        if es == [] {
          r := Done(TAnn(AArgList([]), TList([])));
        } else {
          var elems;
          elems, tb', isDefined' := AnnotateList(es, tb, isDefined, fa, false, []);
          if elems.Done? {
            r := CombineList(es, elems.v, tb', isDefined');
          } else {
            r := if elems.Throw? then Throw else ExprError;
          }
        }
      case Counter(no, e1) =>
        values := values + [ValueEntry(no, true, false)];
        r, tb', isDefined' := Annotate(e1, tb, isDefined, fa);
        if r.Done? {
          r := Done(TAnn(ACounterDef(no, r.v), if 0 < no <= NOCOUNTERS then r.v.t else TYPEERROR));
        }
      case Memory(size, e1) =>
        values := values + [ValueEntry(size, true, false)];
        r, tb', isDefined' := Annotate(e1, tb, isDefined, fa);
        if r.Done? {
          r := Done(TAnn(AMemoryDef(size, r.v), r.v.t));
        }
    }

    method AnnotateList(es: seq<Expr>, tb: Tables, isDefined: bool, fa: seq<TypedArg>, isOp: bool, before: seq<TypedArg>)
      returns (r: Outcome<seq<TAnn>>, tb': Tables, isDefined': bool)
      requires tb.Valid()
      modifies this`values, this`functionno
      ensures (r, StateWith(tb', isDefined'))
           == AnnotateElems(cx, es, old(StateWith(tb, isDefined)), fa, isOp, before)
      decreases es, 0
    {
      if es == [] {
        r, tb', isDefined' := Done([]), tb, isDefined;
      } else {
        var first;
        first, tb', isDefined' := Annotate(es[0], tb, isDefined, if isOp then before else fa);
        if first.Done? {
          var newOperator := if before == [] then first.v.a.AOperator? else isOp;
          var rest;
          rest, tb', isDefined' :=
            AnnotateList(es[1..], tb', isDefined', fa, newOperator, before + [TypedArg(first.v.t, es[0])]);
          r := if rest.Done? then Done([first.v] + rest.v) else rest;
        } else {
          r := if first.Throw? then Throw else ExprError;
        }
      }
    }

    method AnnotateConstant(c: Constant) returns (a: TAnn)
      modifies this`values
      ensures forall tb, d :: (a, StateWith(tb, d)) == AnnotateConst(c, old(StateWith(tb, d)))
    {
      if c.ok {
        values := values + [ValueEntry(c.w, true, false)];
        a := TAnn(AConst(|values| - 1), c.ty);
      } else {
        a := TAnn(AConst(0), TYPEERROR);
      }
    }

    /** The constants a type mapping wants appended, annotated one by one. */
    method AnnotateConstants(cs: seq<Constant>, ghost tb: Tables, ghost isDefined: bool) returns (anns: seq<TAnn>)
      modifies this`values
      ensures (anns, StateWith(tb, isDefined)) == AnnotateConsts(cs, old(StateWith(tb, isDefined)))
    {
      anns := [];
      ghost var st := StateWith(tb, isDefined);
      assert cs[0..] == cs && [] + AnnotateConsts(cs, st).0 == AnnotateConsts(cs, st).0;
      for i := 0 to |cs|
        invariant var (rest, st1) := AnnotateConsts(cs[i..], StateWith(tb, isDefined));
                  (anns + rest, st1) == AnnotateConsts(cs, st)
      {
        assert cs[i..][1..] == cs[i + 1..];
        ghost var rest := AnnotateConsts(cs[i..], StateWith(tb, isDefined)).0;
        var a := AnnotateConstant(cs[i]);
        assert anns + rest == (anns + [a]) + rest[1..];
        anns := anns + [a];
      }
      assert cs[|cs|..] == [] && anns + [] == anns;
    }

    /** Decides by the annotated head what a list is, and appends what a type mapping asks for. */
    method CombineList(es: seq<Expr>, anns: seq<TAnn>, ghost tb: Tables, ghost isDefined: bool) returns (r: Outcome<TAnn>)
      requires |anns| == |es| > 0
      modifies this`values
      ensures (r, StateWith(tb, isDefined)) == Combine(cx, es, anns, old(StateWith(tb, isDefined)))
    {
      var args := Pairs(anns[1..], es[1..]);
      match anns[0].a
      case AOperator(_, cands) =>
        if cands == [] {
          r := Throw;
        } else {
          var key, result, opFunId := TestOverloadedOperators(cands, args, true);
          var extra := AnnotateConstants(Extra(result), tb, isDefined);
          r := Done(TAnn(AApplyOp(key.alg, opFunId, anns[1..] + extra), ResultType(result)));
        }
      case AAbstraction(_, _) =>
        if IsMap(anns[0].t) && MapParams(anns[0].t) == Types(args) {
          r := Done(TAnn(AApplyAbs(anns[0], anns[1..]), MapResult(anns[0].t)));
        } else {
          r := ExprError;
        }
      case AFunctionError => r := ExprError;
      case _ =>
        r := Done(TAnn(AArgList(anns), TList(seq(|anns|, i requires 0 <= i < |anns| => anns[i].t))));
    }

    /** Enters parameter after parameter until one is refused. */
    method EnterParameters(ps: seq<Param>, fa: seq<TypedArg>, tb: Tables, paramno: nat, localfunctionno: nat)
      returns (ok: bool, tb': Tables)
      ensures ok == EnterParams(cx, ps, fa, tb, paramno, localfunctionno).Done?
      ensures tb' == TablesAfterParams(cx, ps, fa, tb, paramno, localfunctionno)
      decreases |ps|
    {
      if ps == [] {
        ok, tb' := true, tb;
      } else {
        var x, t := ps[0].name, ps[0].ptype;
        if t.TSym? {
          if t.name in cx.cat.types {
            t := cx.cat.types[t.name];
          } else if t.name in cx.cat.operators {
            var cands := cx.cat.operators[t.name];
            if cands == [] {
              t := TYPEERROR;
            } else {
              var _, result, _ := TestOverloadedOperators(cands, Rest(fa), false);
              t := if result.Mapped? then result.result else TYPEERROR;
            }
          }
        }
        if tb.IsVariable(x) || x in cx.cat.operators || !ParamTypeOk(cx, t) {
          ok, tb' := false, tb;
        } else {
          ok, tb' := EnterParameters(ps[1..], fa, tb.EnterVariable(x, VarEntry(paramno, localfunctionno, t)),
                                     paramno + 1, localfunctionno);
        }
      }
    }

    // -------------------------------------------------------------- evaluation

    /** Allocates one vector of null slots per function of the query, then builds the tree. */
    method SubtreeX(a: TAnn) returns (tree: OpNode)
      modifies this`argVectors
      ensures Allocated(argVectors, functionno) && NoStreamSlots(argVectors)
      ensures tree == Subtree(cx, a, values)
    {
      argVectors := [];
      for i := 0 to functionno
        invariant |argVectors| == i
        invariant forall f | 0 <= f < i :: |argVectors[f]| == MAXARG
        invariant forall f, j | 0 <= f < i && 0 <= j < MAXARG :: argVectors[f][j] == 0
      {
        argVectors := argVectors + [seq(MAXARG, _ => 0)];
      }
      tree := Subtree(cx, a, values);
    }

    ghost predicate Ready(d: Scope, n: nat)
      reads this
    {
      VectorsOk(cx, argVectors, d, n) && NoStreamSlots(argVectors)
    }

    /** Writes arguments into the vector of function `f`, as operators do through Argument. */
    method LoadArguments(f: nat, ws: seq<Word>)
      requires 1 <= f <= |argVectors| && |ws| <= |argVectors[f - 1]|
      modifies this`argVectors
      ensures argVectors == Load(old(argVectors), f, ws)
    {
      ghost var was := argVectors[f - 1];
      assert ws[..0] + was[0..] == was;
      for i := 0 to |ws|
        invariant |argVectors| == |old(argVectors)|
        invariant argVectors == old(argVectors)[f - 1 := ws[..i] + was[i..]]
      {
        var vector := argVectors[f - 1];
        argVectors := argVectors[f - 1 := vector[i := ws[i]]];
        assert (ws[..i] + was[i..])[i := ws[i]] == ws[..i + 1] + was[i + 1..];
      }
      assert ws[..|ws|] == ws;
    }

    /**
     Evaluates a tree. The value is the lexical one, and all the evaluation leaves behind is in
     vectors of functions inside the tree.
     */
    method Eval(node: OpNode, ghost t: Type, ghost d: Scope, ghost n: nat) returns (w: Word)
      requires Typed(cx, node, t, d, n) && Ready(d, n)
      modifies this`argVectors
      ensures w == Denote(cx, node, old(argVectors)) && cx.alg.hasType(w, t)
      ensures Ready(d, n) && SameArguments(old(argVectors), argVectors, d)
      ensures OnlyVectorsOf(old(argVectors), argVectors, Functions(node))
      decreases node, 2
    {
      Soundness(cx, node, t, d, n, argVectors);
      match node.kind
      case KObject(value) => w := value;
      case KIndirect(f, p) =>
        if argVectors[f - 1][MAXARG - p] != 0 {
          // a stream argument of the calling operator
          assert false;
          w := 0;
        } else {
          w := argVectors[f - 1][p - 1];
        }
      case KOperator(alg, opFunId, sons) =>
        if node.IsAbstraction() {
          w := EvalApplication(node, t, d, n);
        } else {
          w := EvalOperator(node, t, d, n);
        }
    }

    /** Applies an abstraction: evaluates the arguments, loads them, evaluates the body. */
    method EvalApplication(node: OpNode, ghost t: Type, ghost d: Scope, ghost n: nat) returns (w: Word)
      requires Typed(cx, node, t, d, n) && Ready(d, n) && node.IsAbstraction()
      modifies this`argVectors
      ensures w == Denote(cx, node, old(argVectors))
      ensures Ready(d, n) && SameArguments(old(argVectors), argVectors, d)
      ensures OnlyVectorsOf(old(argVectors), argVectors, Functions(node))
      decreases node, 1
    {
      var sons := node.kind.sons;
      ghost var ts := MapParams(sons[0].typeExpr);
      ghost var v0 := argVectors;
      var args: seq<Word> := [];
      for i := 1 to |sons|
        invariant |args| == i - 1
        invariant forall k | 0 <= k < |args| :: args[k] == Denote(cx, sons[k + 1], v0) && cx.alg.hasType(args[k], ts[k])
        invariant Ready(d, n) && SameArguments(v0, argVectors, d)
        invariant OnlyVectorsOf(v0, argVectors, FunctionsOf(sons))
      {
        Frame(cx, sons[i], ts[i - 1], d, n, v0, argVectors);
        FunctionsOfSon(sons, i);
        var a := Eval(sons[i], ts[i - 1], d, n);
        args := args + [a];
      }
      UnfoldCall(cx, node, args, v0);
      FunctionsOfSon(sons, 0);
      w := Call(sons[0], args, d, n, v0);
    }

    /** Loads the arguments of a function and requests its value. */
    method Call(f: OpNode, args: seq<Word>, ghost d: Scope, ghost n: nat, ghost v0: Vectors) returns (w: Word)
      requires TypedFun(cx, f, d, n) && HaveTypes(cx, args, MapParams(f.typeExpr))
      requires Ready(d, n) && VectorsOk(cx, v0, d, n) && SameArguments(v0, argVectors, d)
      modifies this`argVectors
      ensures w == DenoteCall(cx, f, args, v0) && cx.alg.hasType(w, MapResult(f.typeExpr))
      ensures Ready(d, n) && SameArguments(v0, argVectors, d)
      ensures OnlyVectorsOf(old(argVectors), argVectors, Functions(f))
      decreases f, 3
    {
      ghost var ts := MapParams(f.typeExpr);
      CallFrame(cx, f, args, d, n, v0, argVectors);
      LoadOk(cx, argVectors, f.funNo, args, ts, d, n);
      LoadSlots(argVectors, f.funNo, args);
      LoadArguments(f.funNo, args);
      ghost var loaded := argVectors;
      w := Eval(f, MapResult(f.typeExpr), d[f.funNo := ts], n);
      assert SameArguments(loaded, argVectors, d) by {
        forall g, p | g in d && 1 <= p <= |d[g]| ensures Slot(loaded, g, p) == Slot(argVectors, g, p) {
          assert d[f.funNo := ts][g] == d[g];
        }
      }
      assert VectorsOk(cx, argVectors, d, n) by {
        forall g | g in d ensures d[f.funNo := ts][g] == d[g] {}
      }
    }

    /** Evaluates the sons that are evaluable, then runs the value mapping of the operator. */
    method EvalOperator(node: OpNode, ghost t: Type, ghost d: Scope, ghost n: nat) returns (w: Word)
      requires Typed(cx, node, t, d, n) && Ready(d, n) && node.kind.KOperator? && !node.IsAbstraction()
      modifies this`argVectors
      ensures w == Denote(cx, node, old(argVectors))
      ensures Ready(d, n) && SameArguments(old(argVectors), argVectors, d)
      ensures OnlyVectorsOf(old(argVectors), argVectors, Functions(node))
      decreases node, 1
    {
      var key := OpKey(node.kind.alg, node.kind.opFunId % OPBASE);
      ghost var v0 := argVectors;
      var args := EvalSons(node.kind.sons, cx.alg.requestsArgs(key), d, n);
      UnfoldOperator(cx, node, v0);
      w := RunProgram(cx.alg.valueMap(key, node.kind.opFunId / OPBASE, args), node, t, d, n, v0);
    }

    /** The evaluable sons from left to right. */
    method EvalSons(sons: seq<OpNode>, ghost requests: bool, ghost d: Scope, ghost n: nat) returns (args: seq<Arg>)
      requires Ready(d, n) && forall i | 0 <= i < |sons| :: TypedSon(cx, sons[i], requests, d, n)
      modifies this`argVectors
      ensures args == NodeArgs(cx, sons, old(argVectors)) && ArgsMatch(cx, args, SonTypes(sons), requests)
      ensures Ready(d, n) && SameArguments(old(argVectors), argVectors, d)
      ensures OnlyVectorsOf(old(argVectors), argVectors, FunctionsOf(sons))
      decreases sons, 2
    {
      ghost var v0 := argVectors;
      args := [];
      for i := 0 to |sons|
        invariant |args| == i
        invariant forall k | 0 <= k < i :: args[k] == NodeArgs(cx, sons, v0)[k]
        invariant forall k | 0 <= k < i && sons[k].evaluable :: cx.alg.hasType(args[k].w, sons[k].typeExpr)
        invariant Ready(d, n) && SameArguments(v0, argVectors, d)
        invariant OnlyVectorsOf(v0, argVectors, FunctionsOf(sons))
      {
        assert TypedSon(cx, sons[i], requests, d, n);
        if sons[i].evaluable {
          Frame(cx, sons[i], sons[i].typeExpr, d, n, v0, argVectors);
          FunctionsOfSon(sons, i);
          var a := Eval(sons[i], sons[i].typeExpr, d, n);
          args := args + [Val(a)];
        } else {
          args := args + [Supplier];
        }
      }
      assert args == NodeArgs(cx, sons, v0);
    }

    /** The value mapping at work: each request is answered by a son. */
    method RunProgram(p0: Mapping, node: OpNode, ghost t: Type, ghost d: Scope, ghost n: nat, ghost v0: Vectors) returns (w: Word)
      requires Typed(cx, node, t, d, n) && node.kind.KOperator? && !node.IsAbstraction()
      requires ProgramOk(cx, p0, SonTypes(node.kind.sons),
                         cx.alg.requestsArgs(OpKey(node.kind.alg, node.kind.opFunId % OPBASE)), t)
      requires Ready(d, n) && VectorsOk(cx, v0, d, n) && SameArguments(v0, argVectors, d)
      requires OnlyVectorsOf(v0, argVectors, FunctionsOf(node.kind.sons))
      modifies this`argVectors
      ensures w == DenoteProgram(cx, p0, node, v0)
      ensures Ready(d, n) && SameArguments(v0, argVectors, d)
      ensures OnlyVectorsOf(v0, argVectors, FunctionsOf(node.kind.sons))
      decreases node, 0
    {
      var p: Program := p0;
      var sons := node.kind.sons;
      ghost var requests := cx.alg.requestsArgs(OpKey(node.kind.alg, node.kind.opFunId % OPBASE));
      while p.Ask?
        invariant Terminates(p) && ProgramOk(cx, p, SonTypes(sons), requests, t)
        invariant DenoteProgram(cx, p, node, v0) == DenoteProgram(cx, p0, node, v0)
        invariant Ready(d, n) && SameArguments(v0, argVectors, d)
        invariant OnlyVectorsOf(v0, argVectors, FunctionsOf(sons))
        decreases p.Rank()
      {
        var son := sons[p.son];
        assert TypedSon(cx, son, requests, d, n);
        FunctionsOfSon(sons, p.son);
        var answer;
        assert son.typeExpr == SonTypes(sons)[p.son];
        if son.isFun {
          answer := Call(son, p.args, d, n, v0);
        } else {
          Frame(cx, son, son.typeExpr, d, n, v0, argVectors);
          answer := Eval(son, son.typeExpr, d, n);
        }
        p := p.cont(answer);
      }
      w := p.w;
    }

    // ------------------------------------------------------------------ queries

    /** Runs a whole query: annotate, check, build the tree, evaluate. */
    method Query(e: Expr) returns (r: QueryResult)
      requires ContextOk(cx) && WellFormed(cx, e) && Scoped(cx, e, {}, {})
      requires var a := Annotation.Annotate(cx, e, BEGINNING, []).0; a.Done? ==> Sound(cx, a.v)
      modifies this
      ensures r.ErrorInExpression? <==> !WellTyped(cx, e, map[], [], {})
      ensures !r.ErrorInExpression? ==>
                var t, defined := TypeOf(cx, e, map[], []), Defined(cx, ObjectsIn(cx, e));
                && (r.UndefinedObjectValue? <==> !defined)
                && (r.Value? <==> defined && IsValueType(cx, t))
                && (r.Function? <==> defined && !IsValueType(cx, t) && DenotesFunction(e) && Computes(e))
      ensures r.Value? ==> r.t == TypeOf(cx, e, map[], []) && r.w == ValueOf(cx, e, map[], map[], [])
      ensures r.Value? ==> cx.alg.hasType(r.w, r.t)
      ensures r.Function? ==> r.t == TypeOf(cx, e, map[], [])
    {
      values, functionno := [], 0;
      AcceptedExactly(cx, e);
      var a, tb, isDefined := Annotate(e, EMPTYTABLES, true, []);
      if !a.Done? || !Clean(a.v.t) {
        return ErrorInExpression;
      }
      if !isDefined {
        return UndefinedObjectValue;
      }
      var tree := SubtreeX(a.v);
      ghost var none: TypeEnv := map[];
      ghost var nothing: ValueEnv := map[];
      assert none.Keys == {} && nothing.Keys == {};
      TreesFit(cx, e, BEGINNING, [], none, map[], {}, values, functionno);
      NodeOfQuery(cx, e, BEGINNING, [], none, map[], {}, values);
      if tree.evaluable {
        Meaning(cx, e, BEGINNING, [], none, nothing, map[], {}, values, functionno, argVectors);
        var w := Eval(tree, a.v.t, map[], functionno);
        r := Value(w, a.v.t);
      } else if tree.kind.KOperator? && tree.isFun {
        r := Function(a.v.t);
      } else {
        r := NotEvaluable;
      }
    }
  }
}
