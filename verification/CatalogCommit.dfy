/**
 Commit and abort. CleanUp folds the pending entries into the files in three passes: types,
 then objects with undefined values, then the values. The order in which a pass visits the
 entries is left open; nothing proved here depends on it.
 */
module CatalogCommit {
  import opened CatalogState
  import opened CatalogOperations

  /** Writes one pending type; false if the file does not accept it. */
  function TypeStep(fs: Files, n: string, e: TypeEntry): (Files, bool) {
    match e.state
    case EntryInsert =>
      if n !in fs.types then (fs.(types := fs.types[n := e.typeExpr]), true) else (fs, false)
    case EntryUpdate =>
      if n in fs.types then (fs.(types := fs.types[n := e.typeExpr]), true) else (fs, false)
    case EntryDelete =>
      if n in fs.types then (fs.(types := fs.types - {n}), true) else (fs, false)
  }

  /** First visit of an object: the record gets its type but no value, or disappears. */
  function FirstStep(fs: Files, n: string, e: ObjectEntry): (Files, bool) {
    match e.state
    case EntryInsert =>
      if n !in fs.objects
      then (fs.(objects := fs.objects[n := ObjectRecord(e.typeName, e.typeExpr, false, 0)]), true)
      else (fs, false)
    case EntryUpdate =>
      if n in fs.objects
      then (fs.(objects := fs.objects[n := ObjectRecord(e.typeName, e.typeExpr, false, fs.objects[n].recordId)]), true)
      else (fs, false)
    case EntryDelete =>
      if n in fs.objects
      then (fs.(objects := fs.objects - {n}, values := if e.recordId != 0 then fs.values - {e.recordId} else fs.values), true)
      else (fs, false)
  }

  function AppendRecord(fs: Files, n: string, value: Value): Files
    requires n in fs.objects
  {
    fs.(objects := fs.objects[n := fs.objects[n].(valueDefined := true, recordId := fs.nextRecord)],
        values := fs.values[fs.nextRecord := value], nextRecord := fs.nextRecord + 1)
  }

  /** Second visit: the value is saved, into the object's own record or into a new one. */
  function SecondStep(fs: Files, n: string, e: ObjectEntry): (Files, bool) {
    match e.state
    case EntryDelete => (fs, true)
    case EntryInsert =>
      if n !in fs.objects then (fs, false)
      else if e.valueDefined then (AppendRecord(fs, n, e.value), true)
      else (fs, true)
    case EntryUpdate =>
      if n !in fs.objects then (fs, false)
      else if !e.valueDefined then (fs.(objects := fs.objects[n := fs.objects[n].(valueDefined := false)]), true)
      else if e.recordId == 0 then (AppendRecord(fs, n, e.value), true)
      else
        (fs.(objects := fs.objects[n := fs.objects[n].(valueDefined := true)],
             values := if e.recordId in fs.values then fs.values[e.recordId := e.value] else fs.values), true)
  }

  function TypesPass(db: Db, ns: seq<string>): (Files, bool)
    requires forall i | 0 <= i < |ns| :: ns[i] in db.types
  {
    if ns == [] then (db.files, true)
    else
      var n := ns[|ns| - 1];
      var (fs, ok) := TypesPass(db, ns[..|ns| - 1]);
      var (fs', ok') := TypeStep(fs, n, db.types[n]);
      (fs', ok && ok')
  }

  function FirstPass(db: Db, fs0: Files, ns: seq<string>): (Files, bool)
    requires forall i | 0 <= i < |ns| :: ns[i] in db.objects
  {
    if ns == [] then (fs0, true)
    else
      var n := ns[|ns| - 1];
      var (fs, ok) := FirstPass(db, fs0, ns[..|ns| - 1]);
      var (fs', ok') := FirstStep(fs, n, db.objects[n]);
      (fs', ok && ok')
  }

  function SecondPass(db: Db, fs0: Files, ns: seq<string>): (Files, bool)
    requires forall i | 0 <= i < |ns| :: ns[i] in db.objects
  {
    if ns == [] then (fs0, true)
    else
      var n := ns[|ns| - 1];
      var (fs, ok) := SecondPass(db, fs0, ns[..|ns| - 1]);
      var (fs', ok') := SecondStep(fs, n, db.objects[n]);
      (fs', ok && ok')
  }

  /** `ns` lists the keys, each once. */
  predicate Enumerates(ns: seq<string>, keys: set<string>) {
    && (forall i | 0 <= i < |ns| :: ns[i] in keys)
    && (forall i, j | 0 <= i < j < |ns| :: ns[i] != ns[j])
    && (forall k | k in keys :: k in ns)
  }

  /** The files after the passes, the second pass stopped after the objects of `done`. */
  function Committed(db: Db, ts: seq<string>, os: seq<string>, done: seq<string>): (Files, bool)
    requires Enumerates(ts, db.types.Keys) && Enumerates(os, db.objects.Keys)
    requires forall i | 0 <= i < |done| :: done[i] in db.objects
  {
    var (fs, ok) := TypesPass(db, ts);
    var (fs1, ok1) := FirstPass(db, fs, os);
    var (fs2, ok2) := SecondPass(db, fs1, done);
    (fs2, ok && ok1 && ok2)
  }

  // ----------------------------------------------------- what the passes achieve

  ghost predicate TypesDone(db: Db, fs: Files, done: set<string>) {
    && fs == db.files.(types := fs.types)
    && forall n ::
         if n in done && n in db.types
         then (n in fs.types <==> !db.types[n].state.EntryDelete?) && (n in fs.types ==> fs.types[n] == db.types[n].typeExpr)
         else (n in fs.types <==> n in db.files.types) && (n in fs.types ==> fs.types[n] == db.files.types[n])
  }

  /** The record a pending object has between its two visits. */
  function HalfWritten(db: Db, n: string): ObjectRecord
    requires n in db.objects
  {
    var e := db.objects[n];
    ObjectRecord(e.typeName, e.typeExpr, false, if n in db.files.objects then db.files.objects[n].recordId else 0)
  }

  ghost predicate FirstDone(db: Db, fs: Files, done: set<string>) {
    && RecordsOk(fs) && fs.nextRecord == db.files.nextRecord
    && (forall n ::
          if n in done && n in db.objects
          then (n in fs.objects <==> !db.objects[n].state.EntryDelete?) && (n in fs.objects ==> fs.objects[n] == HalfWritten(db, n))
          else (n in fs.objects <==> n in db.files.objects) && (n in fs.objects ==> fs.objects[n] == db.files.objects[n]))
    && (forall id | id in fs.values :: id in db.files.values && fs.values[id] == db.files.values[id])
  }

  ghost predicate SecondDone(db: Db, fs: Files, done: set<string>) {
    && RecordsOk(fs)
    && (forall n | n in db.objects ::
          var e := db.objects[n];
          && (n in fs.objects <==> !e.state.EntryDelete?)
          && (n in fs.objects ==>
                if n in done then ViewOfRecord(fs, fs.objects[n]) == ViewOfEntry(e)
                else fs.objects[n] == HalfWritten(db, n)))
    && (forall n | n !in db.objects ::
          && (n in fs.objects <==> n in db.files.objects)
          && (n in fs.objects ==>
                && fs.objects[n] == db.files.objects[n]
                && ViewOfRecord(fs, fs.objects[n]) == ViewOfRecord(db.files, fs.objects[n])))
  }

  lemma TypeStepDone(db: Db, fs: Files, done: set<string>, n: string)
    requires Inv(db) && TypesDone(db, fs, done) && n in db.types && n !in done
    ensures var (fs', ok) := TypeStep(fs, n, db.types[n]); ok && TypesDone(db, fs', done + {n})
  {}

  lemma FirstStepRecords(db: Db, fs: Files, done: set<string>, n: string)
    requires Inv(db) && FirstDone(db, fs, done) && n in db.objects && n !in done
    ensures RecordsOk(FirstStep(fs, n, db.objects[n]).0)
  {
    var e := db.objects[n];
    assert n in fs.objects <==> n in db.files.objects;
    if e.state.EntryDelete? {
      assert fs.objects[n] == db.files.objects[n];
      assert e.recordId != 0 ==> e.recordId == fs.objects[n].recordId;
    }
  }

  lemma FirstStepDone(db: Db, fs: Files, done: set<string>, n: string)
    requires Inv(db) && FirstDone(db, fs, done) && n in db.objects && n !in done
    ensures var (fs', ok) := FirstStep(fs, n, db.objects[n]); ok && FirstDone(db, fs', done + {n})
  {
    FirstStepRecords(db, fs, done, n);
    assert n in fs.objects <==> n in db.files.objects;
    if db.objects[n].state.EntryDelete? { assert fs.objects[n] == db.files.objects[n]; }
  }

  lemma FirstToSecond(db: Db, fs: Files)
    requires Inv(db) && FirstDone(db, fs, db.objects.Keys)
    ensures SecondDone(db, fs, {})
  {}

  /** Saving one value gives that object its view and leaves all other objects as they are. */
  ghost predicate SavesOnly(fs: Files, fs': Files, n: string, e: ObjectEntry) {
    && RecordsOk(fs') && n in fs.objects && fs'.objects.Keys == fs.objects.Keys
    && ViewOfRecord(fs', fs'.objects[n]) == ViewOfEntry(e)
    && forall m | m in fs.objects && m != n ::
         fs'.objects[m] == fs.objects[m] && ViewOfRecord(fs', fs.objects[m]) == ViewOfRecord(fs, fs.objects[m])
  }

  lemma AppendSaves(fs: Files, n: string, e: ObjectEntry)
    requires RecordsOk(fs) && n in fs.objects && e.valueDefined
    requires fs.objects[n].typeName == e.typeName && fs.objects[n].typeExpr == e.typeExpr
    ensures SavesOnly(fs, AppendRecord(fs, n, e.value), n, e)
  {
    var fs' := AppendRecord(fs, n, e.value);
    assert RecordsOk(fs');
    forall m | m in fs.objects && m != n
      ensures ViewOfRecord(fs', fs.objects[m]) == ViewOfRecord(fs, fs.objects[m])
    {
      assert fs.objects[m].recordId != fs.nextRecord;
    }
  }

  lemma OverwriteSaves(fs: Files, n: string, e: ObjectEntry)
    requires RecordsOk(fs) && n in fs.objects && e.valueDefined
    requires e.recordId != 0 && fs.objects[n] == ObjectRecord(e.typeName, e.typeExpr, false, e.recordId)
    ensures SavesOnly(fs, fs.(objects := fs.objects[n := fs.objects[n].(valueDefined := true)],
                              values := fs.values[e.recordId := e.value]), n, e)
  {
    var fs' := fs.(objects := fs.objects[n := fs.objects[n].(valueDefined := true)],
                   values := fs.values[e.recordId := e.value]);
    assert RecordsOk(fs');
    forall m | m in fs.objects && m != n
      ensures ViewOfRecord(fs', fs.objects[m]) == ViewOfRecord(fs, fs.objects[m])
    {
      assert fs.objects[m].recordId != e.recordId;
    }
  }

  lemma SecondStepSaves(db: Db, fs: Files, n: string)
    requires Inv(db) && RecordsOk(fs) && n in db.objects && !db.objects[n].state.EntryDelete?
    requires n in fs.objects && fs.objects[n] == HalfWritten(db, n)
    ensures var (fs', ok) := SecondStep(fs, n, db.objects[n]); ok && SavesOnly(fs, fs', n, db.objects[n])
  {
    var e := db.objects[n];
    if !e.valueDefined {
      assert SecondStep(fs, n, e).0.objects == fs.objects;
    } else if e.recordId == 0 || e.state.EntryInsert? {
      AppendSaves(fs, n, e);
    } else {
      assert e.recordId in fs.values;
      OverwriteSaves(fs, n, e);
    }
  }

  lemma SecondStepDone(db: Db, fs: Files, done: set<string>, n: string)
    requires Inv(db) && SecondDone(db, fs, done) && n in db.objects && n !in done
    ensures var (fs', ok) := SecondStep(fs, n, db.objects[n]); ok && SecondDone(db, fs', done + {n})
  {
    if !db.objects[n].state.EntryDelete? {
      SecondStepSaves(db, fs, n);
      SavedDone(db, fs, SecondStep(fs, n, db.objects[n]).0, done, n);
    }
  }

  lemma SavedDone(db: Db, fs: Files, fs': Files, done: set<string>, n: string)
    requires SecondDone(db, fs, done) && n in db.objects && !db.objects[n].state.EntryDelete?
    requires SavesOnly(fs, fs', n, db.objects[n])
    ensures SecondDone(db, fs', done + {n})
  {}

  // -------------------------------------------------------------------- the folds

  function Seen(ns: seq<string>): set<string> { set i | 0 <= i < |ns| :: ns[i] }

  lemma SeenSnoc(ns: seq<string>)
    requires ns != []
    ensures Seen(ns) == Seen(ns[..|ns| - 1]) + {ns[|ns| - 1]}
  {
    forall x | x in Seen(ns) ensures x in Seen(ns[..|ns| - 1]) + {ns[|ns| - 1]} {
      var i :| 0 <= i < |ns| && ns[i] == x;
      if i < |ns| - 1 { assert ns[..|ns| - 1][i] == x; }
    }
  }

  /** Visiting one more key that is not yet seen. */
  lemma SeenAppend(ns: seq<string>, n: string)
    requires Distinct(ns) && n !in Seen(ns)
    ensures (ns + [n])[..|ns|] == ns && Seen(ns + [n]) == Seen(ns) + {n} && Distinct(ns + [n])
  {
    SeenSnoc(ns + [n]);
    assert (ns + [n])[..|ns|] == ns;
    assert forall i | 0 <= i < |ns| :: ns[i] in Seen(ns);
  }

  lemma SeenAll(ns: seq<string>, keys: set<string>)
    requires Distinct(ns) && Seen(ns) == keys
    ensures Enumerates(ns, keys)
  {
    forall k | k in keys ensures k in ns {
      assert k in Seen(ns);
    }
    assert forall i | 0 <= i < |ns| :: ns[i] in Seen(ns);
  }

  predicate Distinct(ns: seq<string>) { forall i, j | 0 <= i < j < |ns| :: ns[i] != ns[j] }

  lemma DistinctInit(ns: seq<string>)
    requires ns != [] && Distinct(ns)
    ensures Distinct(ns[..|ns| - 1]) && ns[|ns| - 1] !in Seen(ns[..|ns| - 1])
    ensures Seen(ns) == Seen(ns[..|ns| - 1]) + {ns[|ns| - 1]}
  {
    SeenSnoc(ns);
  }

  lemma {:induction false} TypesPassDone(db: Db, ns: seq<string>)
    requires Inv(db) && Distinct(ns) && forall i | 0 <= i < |ns| :: ns[i] in db.types
    ensures var (fs, ok) := TypesPass(db, ns); ok && TypesDone(db, fs, Seen(ns))
    decreases |ns|
  {
    if ns != [] {
      DistinctInit(ns);
      TypesPassDone(db, ns[..|ns| - 1]);
      TypeStepDone(db, TypesPass(db, ns[..|ns| - 1]).0, Seen(ns[..|ns| - 1]), ns[|ns| - 1]);
    }
  }

  lemma {:induction false} FirstPassDone(db: Db, fs0: Files, ns: seq<string>)
    requires Inv(db) && Distinct(ns) && forall i | 0 <= i < |ns| :: ns[i] in db.objects
    requires fs0 == db.files.(types := fs0.types)
    ensures var (fs, ok) := FirstPass(db, fs0, ns); ok && FirstDone(db, fs, Seen(ns)) && fs.types == fs0.types
    decreases |ns|
  {
    if ns != [] {
      DistinctInit(ns);
      FirstPassDone(db, fs0, ns[..|ns| - 1]);
      FirstStepDone(db, FirstPass(db, fs0, ns[..|ns| - 1]).0, Seen(ns[..|ns| - 1]), ns[|ns| - 1]);
    }
  }

  lemma {:induction false} SecondPassDone(db: Db, fs0: Files, ns: seq<string>)
    requires Inv(db) && Distinct(ns) && forall i | 0 <= i < |ns| :: ns[i] in db.objects
    requires SecondDone(db, fs0, {})
    ensures var (fs, ok) := SecondPass(db, fs0, ns); ok && SecondDone(db, fs, Seen(ns)) && fs.types == fs0.types
    decreases |ns|
  {
    if ns != [] {
      DistinctInit(ns);
      SecondPassDone(db, fs0, ns[..|ns| - 1]);
      SecondStepDone(db, SecondPass(db, fs0, ns[..|ns| - 1]).0, Seen(ns[..|ns| - 1]), ns[|ns| - 1]);
    }
  }

  lemma PrefixDone(db: Db, ts: seq<string>, os: seq<string>, done: seq<string>)
    requires Inv(db) && Enumerates(ts, db.types.Keys) && Enumerates(os, db.objects.Keys)
    requires Distinct(done) && forall i | 0 <= i < |done| :: done[i] in db.objects
    ensures var (fs, ok) := Committed(db, ts, os, done);
            && ok && SecondDone(db, fs, Seen(done))
            && forall n :: (n in fs.types <==> MemberType(db, n)) && (n in fs.types ==> fs.types[n] == TypeNamed(db, n))
  {
    TypesPassDone(db, ts);
    var fs := TypesPass(db, ts).0;
    FirstPassDone(db, fs, os);
    assert Seen(os) == db.objects.Keys;
    var fs1 := FirstPass(db, fs, os).0;
    FirstToSecond(db, fs1);
    SecondPassDone(db, fs1, done);
    assert Seen(ts) == db.types.Keys;
  }

  // ---------------------------------------------------------------- the theorems

  /** Whatever the order, commit succeeds and turns the visible map into the files. */
  lemma CommitRefines(db: Db, ts: seq<string>, os: seq<string>, done: seq<string>)
    requires Inv(db) && Enumerates(ts, db.types.Keys)
    requires Enumerates(os, db.objects.Keys) && Enumerates(done, db.objects.Keys)
    ensures var (fs, ok) := Committed(db, ts, os, done);
            var db' := Db(map[], map[], fs);
            ok && Inv(db') && Visible(db') == Visible(db) && VisibleTypes(db') == VisibleTypes(db)
  {
    PrefixDone(db, ts, os, done);
    var db' := Db(map[], map[], Committed(db, ts, os, done).0);
    assert Seen(done) == db.objects.Keys;
    VisibleShown(db);
    ObjectsShown(db', Visible(db));
    TypesShown(db', VisibleTypes(db));
  }

  /** Stopped anywhere in the second pass, only values can be missing, and none is wrong. */
  lemma CommitPrefix(db: Db, ts: seq<string>, os: seq<string>, done: seq<string>)
    requires Inv(db) && Enumerates(ts, db.types.Keys) && Enumerates(os, db.objects.Keys)
    requires Distinct(done) && forall i | 0 <= i < |done| :: done[i] in db.objects
    ensures var (fs, ok) := Committed(db, ts, os, done);
            var seen := Visible(Db(map[], map[], fs));
            && ok
            && VisibleTypes(Db(map[], map[], fs)) == VisibleTypes(db)
            && seen.Keys == Visible(db).Keys
            && forall n | n in seen ::
                 || seen[n] == Visible(db)[n]
                 || (seen[n] == Visible(db)[n].(value := None) && n in db.objects && n !in done)
  {
    PrefixDone(db, ts, os, done);
    var fs := Committed(db, ts, os, done).0;
    var db' := Db(map[], map[], fs);
    VisibleShown(db);
    VisibleShown(db');
    TypesShown(db', VisibleTypes(db));
    forall n ensures n in Visible(db') <==> n in Visible(db) {
      assert IsObjectName(db', n) <==> n in fs.objects;
    }
  }
}
