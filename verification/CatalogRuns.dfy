/**
 Whole runs of the catalog: any sequence of operations, commits and aborts. Every run keeps
 the invariants and referential integrity, and looks to a reader like the same run on two
 plain maps, one of types and one of objects, with a snapshot taken when a transaction begins.
 */
module CatalogRuns {
  import opened CatalogState
  import opened CatalogOperations
  import opened CatalogCommit

  /** The catalog and the files the storage manager brings back on abort. */
  datatype System = System(db: Db, saved: Files)

  const EMPTYSYSTEM := System(Db(map[], map[], EMPTYFILES), EMPTYFILES)

  datatype Op =
    | OpInsertType(n: string, e: string)
    | OpDeleteType(n: string)
    | OpInsertObject(n: string, typeName: string, typeExpr: string, value: Value, valueDefined: bool)
    | OpDeleteObject(n: string)
    | OpKillObject(n: string)
    | OpUpdateObject(n: string, value: Value)
    | OpModifyObject(n: string, value: Value)
    | OpRenameObject(n: string, newName: string)
    | OpBegin
    | OpCommit(ts: seq<string>, os: seq<string>, done: seq<string>)
    | OpAbort

  /** When the operation may be called; for a commit, that its passes visit all entries. */
  predicate Enabled(s: System, op: Op) {
    match op
    case OpModifyObject(n, _) => n in s.db.objects ==> !s.db.objects[n].state.EntryDelete?
    case OpRenameObject(n, m) => IsObjectName(s.db, n) && !IsObjectName(s.db, m) ==> RenameSafe(s.db, n, m)
    case OpBegin => s.db.types == map[] && s.db.objects == map[]
    case OpCommit(ts, os, done) =>
      && Enumerates(ts, s.db.types.Keys) && Enumerates(os, s.db.objects.Keys) && Enumerates(done, s.db.objects.Keys)
    case _ => true
  }

  function Step(s: System, op: Op): System
    requires Enabled(s, op)
  {
    match op
    case OpInsertType(n, e) => s.(db := InsertType(s.db, n, e).0)
    case OpDeleteType(n) => s.(db := DeleteType(s.db, n).0)
    case OpInsertObject(n, t, e, v, d) => s.(db := InsertObject(s.db, n, t, e, v, d).0)
    case OpDeleteObject(n) => s.(db := DeleteObject(s.db, n).0)
    case OpKillObject(n) => s.(db := KillObject(s.db, n).0)
    case OpUpdateObject(n, v) => s.(db := UpdateObject(s.db, n, v).0)
    case OpModifyObject(n, v) => s.(db := ModifyObject(s.db, n, v).0)
    case OpRenameObject(n, m) => s.(db := RenameObject(s.db, n, m).0)
    case OpBegin => s.(saved := s.db.files)
    case OpCommit(ts, os, done) =>
      var fs := Committed(s.db, ts, os, done).0;
      System(Db(map[], map[], fs), fs)
    case OpAbort => System(Db(map[], map[], s.saved), s.saved)
  }

  predicate CanRun(s: System, ops: seq<Op>)
    decreases |ops|
  {
    ops == [] || (Enabled(s, ops[0]) && CanRun(Step(s, ops[0]), ops[1..]))
  }

  function Run(s: System, ops: seq<Op>): System
    requires CanRun(s, ops)
    decreases |ops|
  {
    if ops == [] then s else Run(Step(s, ops[0]), ops[1..])
  }

  // ------------------------------------------------------- the plain-map reading

  datatype Maps = Maps(types: map<string, string>, objects: map<string, ObjectView>)

  function MapsOf(db: Db): Maps { Maps(VisibleTypes(db), Visible(db)) }

  datatype Plain = Plain(now: Maps, saved: Maps)

  function PlainOf(s: System): Plain {
    Plain(MapsOf(s.db), MapsOf(Db(map[], map[], s.saved)))
  }

  /** No visible object uses the type. */
  predicate Unused(m: Maps, n: string) {
    forall k | k in m.objects :: n == "" || m.objects[k].typeName != n
  }

  /** What an operation may do to the two maps. */
  predicate PlainStep(a: Plain, op: Op, b: Plain) {
    var now := a.now;
    match op
    case OpInsertType(n, e) =>
      b == a.(now := if n in now.types then now else now.(types := now.types[n := e]))
    case OpDeleteType(n) =>
      // may be refused, but never removes a type that is in use
      b == a || (n in now.types && Unused(now, n) && b == a.(now := now.(types := now.types - {n})))
    case OpInsertObject(n, t, e, v, d) =>
      b == a.(now := if n in now.objects then now
                     else now.(objects := now.objects[n := ObjectView(t, e, if d then Some(v) else None)]))
    case OpDeleteObject(n) => b == a.(now := now.(objects := now.objects - {n}))
    case OpKillObject(n) => b == a.(now := now.(objects := now.objects - {n}))
    case OpUpdateObject(n, v) =>
      b == a.(now := if n in now.objects then now.(objects := now.objects[n := now.objects[n].(value := Some(v))]) else now)
    case OpModifyObject(n, v) =>
      b == a.(now := if n in now.objects then now.(objects := now.objects[n := now.objects[n].(value := Some(v))]) else now)
    case OpRenameObject(n, m) =>
      b == a.(now := if n in now.objects && m !in now.objects
                     then now.(objects := (now.objects - {n})[m := now.objects[n]]) else now)
    case OpBegin => b == a.(saved := a.now)
    case OpCommit(_, _, _) => b == Plain(a.now, a.now)
    case OpAbort => b == Plain(a.saved, a.saved)
  }

  ghost predicate PlainRun(a: Plain, ops: seq<Op>, b: Plain)
    decreases |ops|
  {
    if ops == [] then a == b else exists c :: PlainStep(a, ops[0], c) && PlainRun(c, ops[1..], b)
  }

  ghost predicate SystemInv(s: System) { Inv(s.db) && RecordsOk(s.saved) }

  lemma FilesInv(fs: Files)
    requires RecordsOk(fs)
    ensures Inv(Db(map[], map[], fs))
  {}

  lemma NoOverlay(db: Db)
    requires db.types == map[] && db.objects == map[]
    ensures db == Db(map[], map[], db.files)
  {}

  /** One step of the catalog is one step on the plain maps. */
  lemma {:induction false} StepRefines(s: System, op: Op)
    requires SystemInv(s) && Enabled(s, op)
    ensures SystemInv(Step(s, op)) && PlainStep(PlainOf(s), op, PlainOf(Step(s, op)))
  {
    match op
    case OpInsertType(n, e) => InsertTypeRefines(s.db, n, e);
    case OpDeleteType(n) => DeleteTypeRefines(s.db, n);
    case OpInsertObject(n, t, e, v, d) => InsertObjectRefines(s.db, n, t, e, v, d);
    case OpDeleteObject(n) => DeleteObjectRefines(s.db, n);
    case OpKillObject(n) => KillObjectRefines(s.db, n);
    case OpUpdateObject(n, v) => UpdateObjectRefines(s.db, n, v);
    case OpModifyObject(n, v) => ModifyObjectRefines(s.db, n, v);
    case OpRenameObject(n, m) =>
      VisibleShown(s.db);
      if IsObjectName(s.db, n) && !IsObjectName(s.db, m) {
        RenameWhenSafe(s.db, n, m);
        RenameKeepsTypes(s.db, n, m);
      }
    case OpBegin => NoOverlay(s.db);
    case OpCommit(ts, os, done) => CommitRefines(s.db, ts, os, done);
    case OpAbort => FilesInv(s.saved);
  }

  lemma RenameKeepsTypes(db: Db, n: string, m: string)
    ensures VisibleTypes(RenameObject(db, n, m).0) == VisibleTypes(db)
  {
    VisibleShown(db);
    TypesShown(RenameObject(db, n, m).0, VisibleTypes(db));
  }

  /** Every run refines a run on plain maps, and keeps all record invariants. */
  lemma {:induction false} RunRefines(s: System, ops: seq<Op>)
    requires SystemInv(s) && CanRun(s, ops)
    ensures SystemInv(Run(s, ops)) && PlainRun(PlainOf(s), ops, PlainOf(Run(s, ops)))
    decreases |ops|
  {
    if ops != [] {
      StepRefines(s, ops[0]);
      RunRefines(Step(s, ops[0]), ops[1..]);
    }
  }

  // ------------------------------------------------------------------ integrity

  ghost predicate Integrity(m: Maps) {
    forall n | n in m.objects :: m.objects[n].typeName == "" || m.objects[n].typeName in m.types
  }

  /** Objects are inserted with an empty or a visible type name only. */
  predicate TypedInserts(s: System, ops: seq<Op>)
    requires CanRun(s, ops)
    decreases |ops|
  {
    ops == [] || (
      && (ops[0].OpInsertObject? ==> ops[0].typeName == "" || ops[0].typeName in VisibleTypes(s.db))
      && TypedInserts(Step(s, ops[0]), ops[1..]))
  }

  lemma {:induction false} PlainIntegrity(a: Plain, op: Op, b: Plain)
    requires PlainStep(a, op, b) && Integrity(a.now) && Integrity(a.saved)
    requires op.OpInsertObject? ==> op.typeName == "" || op.typeName in a.now.types
    ensures Integrity(b.now) && Integrity(b.saved)
  {}

  /** In every reachable state, across commits and aborts, each object's type name is a type. */
  lemma {:induction false} ReferentialIntegrity(s: System, ops: seq<Op>)
    requires SystemInv(s) && CanRun(s, ops) && TypedInserts(s, ops)
    requires Integrity(PlainOf(s).now) && Integrity(PlainOf(s).saved)
    ensures Integrity(PlainOf(Run(s, ops)).now)
    decreases |ops|
  {
    if ops != [] {
      StepRefines(s, ops[0]);
      PlainIntegrity(PlainOf(s), ops[0], PlainOf(Step(s, ops[0])));
      ReferentialIntegrity(Step(s, ops[0]), ops[1..]);
    }
  }

  /** The empty database is a state the theorems above start from. */
  lemma StartsWell()
    ensures SystemInv(EMPTYSYSTEM)
    ensures Integrity(PlainOf(EMPTYSYSTEM).now) && Integrity(PlainOf(EMPTYSYSTEM).saved)
  {}

  // ----------------------------------------------------------------------- abort

  predicate InsideTransaction(ops: seq<Op>) {
    forall i | 0 <= i < |ops| :: !ops[i].OpBegin? && !ops[i].OpCommit? && !ops[i].OpAbort?
  }

  lemma {:induction false} SavedKept(s: System, ops: seq<Op>)
    requires CanRun(s, ops) && InsideTransaction(ops)
    ensures Run(s, ops).saved == s.saved
    decreases |ops|
  {
    if ops != [] {
      assert !ops[0].OpBegin? && !ops[0].OpCommit? && !ops[0].OpAbort?;
      SavedKept(Step(s, ops[0]), ops[1..]);
    }
  }

  /** Whatever a transaction did, aborting it gives back the catalog it started from. */
  lemma {:induction false} AbortRestores(s: System, ops: seq<Op>)
    requires Enabled(s, OpBegin) && CanRun(Step(s, OpBegin), ops) && InsideTransaction(ops)
    ensures Step(Run(Step(s, OpBegin), ops), OpAbort).db == s.db
  {
    SavedKept(Step(s, OpBegin), ops);
  }

  // ------------------------------------------------- refusals beyond necessity

  /** DeleteType also counts records of objects that are already pending for deletion. */
  lemma DeleteTypeRefusesTooMuch()
    ensures exists db, n ::
              Inv(db) && n in VisibleTypes(db) && Unused(MapsOf(db), n) && DeleteType(db, n).1 == 1
  {
    var fs := Files(map["t" := "int"], map["a" := ObjectRecord("t", "int", false, 0)], map[], 1);
    var db0 := Db(map[], map[], fs);
    assert Inv(db0);
    DeleteObjectRefines(db0, "a");
    var db := DeleteObject(db0, "a").0;
    assert Visible(db).Keys == {};
    assert MemberType(db, "t") && db.files.objects["a"].typeName == "t";
    assert "t" in VisibleTypes(db) && Unused(MapsOf(db), "t") && DeleteType(db, "t").1 == 1;
  }

  /** Exactly when a visible type is refused: a visible user, or a record still in the file. */
  lemma DeleteTypeExact(db: Db, n: string)
    requires Inv(db) && n in VisibleTypes(db) && n != ""
    ensures DeleteType(db, n).1 == 1 <==>
              || !Unused(MapsOf(db), n)
              || exists k :: k in db.objects && k in db.files.objects && db.files.objects[k].typeName == n
    ensures DeleteType(db, n).1 != 1 <==> DeleteType(db, n).1 == 0
  {
    VisibleShown(db);
    assert DeleteType(db, n).1 == 1 <==> TypeUsedByObject(db, n);
    if k :| k in db.files.objects && db.files.objects[k].typeName == n && k !in db.objects {
      assert k in Visible(db) && Visible(db)[k].typeName == n;
    }
    if k :| k in db.objects && !db.objects[k].state.EntryDelete? && db.objects[k].typeName == n {
      assert k in Visible(db) && Visible(db)[k].typeName == n;
    }
  }
}
