/**
 What the catalog does to the value records: a delete that is committed frees the record its
 entry names, an update overwrites the record of the object, and killing an object takes it out
 of the files at once, so that its type can go.
 */
module CatalogRecords {
  import opened CatalogState
  import opened CatalogOperations
  import opened CatalogCommit

  /** The records named by the deletes seen so far are gone, and numbers are not handed out again. */
  ghost predicate Freed(db: Db, fs: Files, done: set<string>) {
    && db.files.nextRecord <= fs.nextRecord
    && forall n | n in done && n in db.objects && db.objects[n].state.EntryDelete? && db.objects[n].recordId != 0 ::
         db.objects[n].recordId !in fs.values
  }

  /** Objects whose pending update names a record have that record. */
  ghost predicate KeptRecords(db: Db, fs: Files) {
    forall n | n in fs.objects && n in db.objects && db.objects[n].recordId != 0 ::
      fs.objects[n].recordId == db.objects[n].recordId
  }

  lemma {:induction false} FirstPassFrees(db: Db, fs0: Files, ns: seq<string>)
    requires Inv(db) && Distinct(ns) && forall i | 0 <= i < |ns| :: ns[i] in db.objects
    requires fs0 == db.files.(types := fs0.types)
    ensures Freed(db, FirstPass(db, fs0, ns).0, Seen(ns))
    decreases |ns|
  {
    if ns != [] {
      var before := ns[..|ns| - 1];
      DistinctInit(ns);
      FirstPassFrees(db, fs0, before);
      FirstPassDone(db, fs0, before);
      FirstStepFrees(db, FirstPass(db, fs0, before).0, Seen(before), ns[|ns| - 1]);
    }
  }

  lemma FirstStepFrees(db: Db, fs: Files, done: set<string>, n: string)
    requires Inv(db) && Freed(db, fs, done) && FirstDone(db, fs, done) && n in db.objects && n !in done
    ensures Freed(db, FirstStep(fs, n, db.objects[n]).0, done + {n})
  {
    assert n in fs.objects <==> n in db.files.objects;
  }

  lemma SecondStepFrees(db: Db, fs: Files, all: set<string>, n: string)
    requires Inv(db) && Freed(db, fs, all) && KeptRecords(db, fs) && n in db.objects
    ensures var fs' := SecondStep(fs, n, db.objects[n]).0; Freed(db, fs', all) && KeptRecords(db, fs')
  {
    var fs' := SecondStep(fs, n, db.objects[n]).0;
    forall m | m in all && m in db.objects && db.objects[m].state.EntryDelete? && db.objects[m].recordId != 0
      ensures db.objects[m].recordId !in fs'.values
    {
      assert db.objects[m].recordId < db.files.nextRecord;
    }
  }

  lemma {:induction false} SecondPassFrees(db: Db, fs0: Files, ns: seq<string>, all: set<string>)
    requires Inv(db) && Freed(db, fs0, all) && KeptRecords(db, fs0) && forall i | 0 <= i < |ns| :: ns[i] in db.objects
    ensures var fs := SecondPass(db, fs0, ns).0; Freed(db, fs, all) && KeptRecords(db, fs)
    decreases |ns|
  {
    if ns != [] {
      SecondPassFrees(db, fs0, ns[..|ns| - 1], all);
      SecondStepFrees(db, SecondPass(db, fs0, ns[..|ns| - 1]).0, all, ns[|ns| - 1]);
    }
  }

  /** After a commit, deletes have freed the records their entries name, and updates have kept theirs. */
  lemma {:induction false} CommitRecords(db: Db, ts: seq<string>, os: seq<string>, done: seq<string>)
    requires Inv(db) && Enumerates(ts, db.types.Keys)
    requires Enumerates(os, db.objects.Keys) && Enumerates(done, db.objects.Keys)
    ensures var fs := Committed(db, ts, os, done).0;
            forall n | n in db.objects && db.objects[n].recordId != 0 ::
              if db.objects[n].state.EntryDelete? then n !in fs.objects && db.objects[n].recordId !in fs.values
              else n in fs.objects && fs.objects[n].recordId == db.objects[n].recordId
  {
    TypesPassDone(db, ts);
    var fs := TypesPass(db, ts).0;
    FirstPassDone(db, fs, os);
    FirstPassFrees(db, fs, os);
    assert Seen(os) == db.objects.Keys;
    SecondPassFrees(db, FirstPass(db, fs, os).0, done, Seen(os));
    PrefixDone(db, ts, os, done);
  }

  /** Updating a stored object and committing overwrites its value record. */
  lemma {:induction false} UpdateOverwrites(db: Db, n: string, value: Value, ts: seq<string>, os: seq<string>, done: seq<string>)
    requires Inv(db) && n !in db.objects && n in db.files.objects && db.files.objects[n].recordId != 0
    requires var db1 := UpdateObject(db, n, value).0;
             && Enumerates(ts, db1.types.Keys) && Enumerates(os, db1.objects.Keys) && Enumerates(done, db1.objects.Keys)
    ensures var fs, id := Committed(UpdateObject(db, n, value).0, ts, os, done).0, db.files.objects[n].recordId;
            n in fs.objects && fs.objects[n].recordId == id && id in fs.values && fs.values[id] == value
  {
    var db1 := UpdateObject(db, n, value).0;
    UpdateObjectRefines(db, n, value);
    CommitRecords(db1, ts, os, done);
    CommitRefines(db1, ts, os, done);
    var fs := Committed(db1, ts, os, done).0;
    assert n in Visible(db1) && Visible(db1)[n].value == Some(value);
    assert Visible(Db(map[], map[], fs))[n] == ViewOfRecord(fs, fs.objects[n]);
  }

  /** Deleting a stored object that is updated first, and committing, frees its value record. */
  lemma {:induction false} DeleteFrees(db: Db, n: string, value: Value, ts: seq<string>, os: seq<string>, done: seq<string>)
    requires Inv(db) && n !in db.objects && n in db.files.objects && db.files.objects[n].recordId != 0
    requires var db2 := DeleteObject(UpdateObject(db, n, value).0, n).0;
             && Enumerates(ts, db2.types.Keys) && Enumerates(os, db2.objects.Keys) && Enumerates(done, db2.objects.Keys)
    ensures var fs := Committed(DeleteObject(UpdateObject(db, n, value).0, n).0, ts, os, done).0;
            n !in fs.objects && db.files.objects[n].recordId !in fs.values
  {
    UpdateObjectRefines(db, n, value);
    DeleteObjectRefines(UpdateObject(db, n, value).0, n);
    CommitRecords(DeleteObject(UpdateObject(db, n, value).0, n).0, ts, os, done);
  }

  // ------------------------------------------------------------------------- killing

  /** An object that is not pending goes from the files at once, with its value record. */
  lemma KillTakesFromFiles(db: Db, n: string)
    requires Inv(db)
    ensures var db' := KillObject(db, n).0;
            && db'.types == db.types && db'.files.types == db.files.types && db'.files.nextRecord == db.files.nextRecord
            && (n in db.objects ==> db'.files == db.files)
            && (n !in db.objects ==> db'.objects == db.objects && db'.files.objects == db.files.objects - {n})
            && (n !in db.objects && n in db.files.objects ==>
                  db'.files.values == db.files.values - {db.files.objects[n].recordId})
  {
    if n !in db.objects && n in db.files.objects && db.files.objects[n].recordId == 0 {
      assert db.files.values - {0} == db.files.values;
    }
  }

  /** No object but `n` uses type `t`. */
  predicate OnlyUser(db: Db, n: string, t: string) {
    && n !in db.objects && n in db.files.objects && db.files.objects[n].typeName == t
    && (forall k | k in db.files.objects && k != n :: db.files.objects[k].typeName != t)
    && forall k | k in db.objects && !db.objects[k].state.EntryDelete? :: db.objects[k].typeName != t
  }

  /** Once the only user of a type is killed the type can go; if it is deleted instead, not before the commit. */
  lemma KillFreesType(db: Db, n: string, t: string)
    requires Inv(db) && t in VisibleTypes(db) && t != "" && OnlyUser(db, n, t)
    ensures KillObject(db, n).1 && DeleteType(KillObject(db, n).0, t).1 == 0
    ensures DeleteObject(db, n).1 && DeleteType(DeleteObject(db, n).0, t).1 == 1
  {
    VisibleShown(db);
    KillTakesFromFiles(db, n);
    KillObjectRefines(db, n);
    var db1, db2 := KillObject(db, n).0, DeleteObject(db, n).0;
    assert !TypeUsedByObject(db1, t) && MemberType(db1, t);
    assert db2.files == db.files && db2.types == db.types && db2.files.objects[n].typeName == t;
    assert TypeUsedByObject(db2, t) && MemberType(db2, t);
  }

  // ------------------------------------------------------------------------ renaming

  /**
   What RenameObject answers, and what it does if it does not rename. If a delete is pending under
   the new name, a stored object is lost: its record is gone before the new one is refused.
   */
  lemma RenameAnswers(db: Db, old_: string, new_: string)
    requires Inv(db)
    ensures var (db', r) := RenameObject(db, old_, new_);
            && (r == NameUsed <==> new_ in Visible(db))
            && (r == UnknownObject <==> new_ !in Visible(db) && old_ !in Visible(db))
            && (r == CatalogError <==>
                  && new_ !in Visible(db) && old_ in Visible(db)
                  && old_ !in db.objects && new_ in db.objects)
            && (r == NameUsed || r == UnknownObject ==> db' == db)
            && (r == CatalogError ==> Visible(db') == Visible(db) - {old_} && VisibleTypes(db') == VisibleTypes(db))
  {
    VisibleShown(db);
    var (db', r) := RenameObject(db, old_, new_);
    if r == CatalogError {
      forall m | m != old_
        ensures IsObjectName(db', m) == IsObjectName(db, m)
        ensures IsObjectName(db, m) ==> ObjectNamed(db', m) == ObjectNamed(db, m) {}
      ObjectsShown(db', Visible(db) - {old_});
      TypesShown(db', VisibleTypes(db));
    }
  }
}
