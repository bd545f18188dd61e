/**
 Each catalog operation, seen from outside: what it does to the visible map, and that it keeps
 the invariants between pending entries, catalog records and value records.
 */
module CatalogOperations {
  import opened CatalogState

  /** Only object `n` differs, and it is now `view`. */
  ghost predicate OnlyObject(db: Db, db': Db, n: string, view: Option<ObjectView>) {
    && VisibleTypes(db') == VisibleTypes(db)
    && Visible(db') == if view.Some? then Visible(db)[n := view.value] else Visible(db) - {n}
  }

  /** `m` is what the catalog shows, name by name. */
  ghost predicate ShowsObjects(db: Db, m: map<string, ObjectView>) {
    forall k :: (k in m <==> IsObjectName(db, k)) && (k in m ==> m[k] == ObjectNamed(db, k))
  }

  ghost predicate ShowsTypes(db: Db, m: map<string, string>) {
    forall k :: (k in m <==> MemberType(db, k)) && (k in m ==> m[k] == TypeNamed(db, k))
  }

  lemma VisibleShown(db: Db)
    ensures ShowsObjects(db, Visible(db)) && ShowsTypes(db, VisibleTypes(db))
  {}

  lemma ObjectsShown(db: Db, m: map<string, ObjectView>)
    requires ShowsObjects(db, m)
    ensures Visible(db) == m
  {
    VisibleShown(db);
    assert forall k :: k in m <==> k in Visible(db);
  }

  lemma TypesShown(db: Db, m: map<string, string>)
    requires ShowsTypes(db, m)
    ensures VisibleTypes(db) == m
  {
    VisibleShown(db);
    assert forall k :: k in m <==> k in VisibleTypes(db);
  }

  lemma InsertTypeKeepsInv(db: Db, n: string, e: string)
    requires Inv(db)
    ensures Inv(InsertType(db, n, e).0)
  {}

  lemma InsertTypeRefines(db: Db, n: string, e: string)
    requires Inv(db)
    ensures var (db', ok) := InsertType(db, n, e);
            && Inv(db')
            && ok == (n !in VisibleTypes(db))
            && db'.files == db.files
            && Visible(db') == Visible(db)
            && VisibleTypes(db') == if ok then VisibleTypes(db)[n := e] else VisibleTypes(db)
  {
    var (db', ok) := InsertType(db, n, e);
    InsertTypeKeepsInv(db, n, e);
    VisibleShown(db);
    ObjectsShown(db', Visible(db));
    TypesShown(db', if ok then VisibleTypes(db)[n := e] else VisibleTypes(db));
  }

  lemma DeleteTypeRefines(db: Db, n: string)
    requires Inv(db)
    ensures var (db', rc) := DeleteType(db, n);
            && Inv(db')
            && db'.files == db.files
            && Visible(db') == Visible(db)
            && (rc == 2 <==> n !in VisibleTypes(db))
            && (rc == 0 ==> forall k | k in Visible(db) :: n == "" || Visible(db)[k].typeName != n)
            && VisibleTypes(db') == if rc == 0 then VisibleTypes(db) - {n} else VisibleTypes(db)
  {
    var (db', rc) := DeleteType(db, n);
    if rc == 0 {
      if n != "" { UnusedType(db, n); }
      TypeGone(db, db', n);
    }
  }

  lemma TypeGone(db: Db, db': Db, n: string)
    requires Inv(db) && db'.objects == db.objects && db'.files == db.files && !MemberType(db', n)
    requires n in db'.types <==> n in db.files.types
    requires n in db'.types ==> db'.types[n].state.EntryDelete?
    requires forall m | m != n :: (m in db'.types <==> m in db.types) && (m in db.types ==> db'.types[m] == db.types[m])
    ensures Inv(db') && Visible(db') == Visible(db) && VisibleTypes(db') == VisibleTypes(db) - {n}
  {
    assert OverlayOk(db') && PendingRecordsOk(db');
    VisibleShown(db);
    ObjectsShown(db', Visible(db));
    TypesShown(db', VisibleTypes(db) - {n});
  }

  /** If the search over pending entries and file records finds no user, no visible object is one. */
  lemma UnusedType(db: Db, n: string)
    requires n != "" && !TypeUsedByObject(db, n)
    ensures forall k | k in Visible(db) :: Visible(db)[k].typeName != n
  {
    VisibleShown(db);
  }

  lemma InsertKeepsInv(db: Db, n: string, typeName: string, typeExpr: string, value: Value, valueDefined: bool)
    requires Inv(db)
    ensures Inv(InsertObject(db, n, typeName, typeExpr, value, valueDefined).0)
  {}

  lemma InsertObjectRefines(db: Db, n: string, typeName: string, typeExpr: string, value: Value, valueDefined: bool)
    requires Inv(db)
    ensures var (db', ok) := InsertObject(db, n, typeName, typeExpr, value, valueDefined);
            && Inv(db')
            && ok == (n !in Visible(db))
            && db'.files == db.files
            && (ok ==> OnlyObject(db, db', n, Some(ObjectView(typeName, typeExpr, if valueDefined then Some(value) else None))))
            && (!ok ==> db' == db)
  {
    var (db', ok) := InsertObject(db, n, typeName, typeExpr, value, valueDefined);
    if ok {
      InsertKeepsInv(db, n, typeName, typeExpr, value, valueDefined);
      VisibleShown(db);
      TypesShown(db', VisibleTypes(db));
      ObjectsShown(db', Visible(db)[n := ObjectView(typeName, typeExpr, if valueDefined then Some(value) else None)]);
    }
  }

  lemma DeleteObjectRefines(db: Db, n: string)
    requires Inv(db)
    ensures var (db', ok) := DeleteObject(db, n);
            && Inv(db')
            && ok == (n in Visible(db))
            && db'.files == db.files
            && OnlyObject(db, db', n, None)
  {
    var db' := DeleteObject(db, n).0;
    ObjectGone(db, db', n);
  }

  lemma ObjectGone(db: Db, db': Db, n: string)
    requires Inv(db) && db'.types == db.types && db'.files == db.files && !IsObjectName(db', n)
    requires n in db'.objects <==> n in db.files.objects
    requires n in db'.objects ==> db'.objects[n].state.EntryDelete?
    requires n in db'.objects && db'.objects[n].recordId != 0 ==>
               n in db.objects && db'.objects[n].recordId == db.objects[n].recordId
    requires forall m | m != n :: (m in db'.objects <==> m in db.objects) && (m in db.objects ==> db'.objects[m] == db.objects[m])
    ensures Inv(db') && OnlyObject(db, db', n, None)
  {
    assert OverlayOk(db') && PendingRecordsOk(db');
    VisibleShown(db);
    TypesShown(db', VisibleTypes(db));
    ObjectsShown(db', Visible(db) - {n});
  }

  lemma KillObjectRefines(db: Db, n: string)
    requires Inv(db)
    ensures var (db', ok) := KillObject(db, n);
            && Inv(db')
            && ok == (n in Visible(db))
            && OnlyObject(db, db', n, None)
            && (forall m | m != n && m in db.files.objects && db.files.objects[m].recordId != 0 ::
                  var id := db.files.objects[m].recordId;
                  id in db'.files.values && db'.files.values[id] == db.files.values[id])
            && (n !in db.objects && n in db.files.objects ==>
                  && n !in db'.objects && n !in db'.files.objects
                  && db.files.objects[n].recordId !in db'.files.values)
  {
    var (db', ok) := KillObject(db, n);
    if n in db.objects || n !in db.files.objects {
      ObjectGone(db, db', n);
    } else {
      KillStored(db, n);
    }
  }

  /** Taking one object and its value record out of the files leaves all other values alone. */
  lemma KillStored(db: Db, n: string)
    requires Inv(db) && n !in db.objects && n in db.files.objects
    ensures var (db', ok) := KillObject(db, n);
            && Inv(db') && ok && OnlyObject(db, db', n, None)
            && (forall m | m != n && m in db.files.objects && db.files.objects[m].recordId != 0 ::
                  var id := db.files.objects[m].recordId;
                  id in db'.files.values && db'.files.values[id] == db.files.values[id])
  {
    var db' := KillObject(db, n).0;
    assert RecordsOk(db'.files);
    assert OverlayOk(db') && PendingRecordsOk(db');
    VisibleShown(db);
    TypesShown(db', VisibleTypes(db));
    forall m | m != n && IsObjectName(db, m)
      ensures IsObjectName(db', m) && ObjectNamed(db', m) == ObjectNamed(db, m) {}
    ObjectsShown(db', Visible(db) - {n});
  }

  lemma UpdateObjectRefines(db: Db, n: string, value: Value)
    requires Inv(db)
    ensures var (db', ok) := UpdateObject(db, n, value);
            && Inv(db')
            && ok == (n in Visible(db))
            && db'.files == db.files
            && (ok ==> OnlyObject(db, db', n, Some(Visible(db)[n].(value := Some(value)))))
            && (!ok ==> db' == db)
  {
    var (db', ok) := UpdateObject(db, n, value);
    if ok {
      VisibleShown(db);
      TypesShown(db', VisibleTypes(db));
      ObjectsShown(db', Visible(db)[n := Visible(db)[n].(value := Some(value))]);
    }
  }

  /** Where ModifyObject may be called at all, it is UpdateObject. */
  lemma ModifyObjectRefines(db: Db, n: string, value: Value)
    requires Inv(db) && (n in db.objects ==> !db.objects[n].state.EntryDelete?)
    ensures var (db', ok) := ModifyObject(db, n, value);
            && Inv(db')
            && ok == (n in Visible(db))
            && db'.files == db.files
            && (ok ==> OnlyObject(db, db', n, Some(Visible(db)[n].(value := Some(value)))))
            && (!ok ==> db' == db)
  {
    assert ModifyObject(db, n, value) == UpdateObject(db, n, value);
    UpdateObjectRefines(db, n, value);
  }

  // ----------------------------------------------------------------------- rename

  /** What a caller can check: no pending delete waits under the new name, no update under the old. */
  predicate RenameSafe(db: Db, old_: string, new_: string) {
    && new_ !in db.objects
    && (old_ in db.objects ==> db.objects[old_].state.EntryInsert?)
  }

  /** RenameObject renames and keeps the catalog consistent exactly when it is safe. */
  lemma RenameObjectExact(db: Db, old_: string, new_: string)
    requires Inv(db) && IsObjectName(db, old_) && !IsObjectName(db, new_)
    ensures var (db', r) := RenameObject(db, old_, new_);
            (r == Renamed && Inv(db') && Visible(db') == (Visible(db) - {old_})[new_ := Visible(db)[old_]])
            <==> RenameSafe(db, old_, new_)
  {
    var (db', r) := RenameObject(db, old_, new_);
    if RenameSafe(db, old_, new_) {
      RenameWhenSafe(db, old_, new_);
    } else if old_ in db.objects && db.objects[old_].state.EntryUpdate? {
      assert old_ in Visible(db');
    } else if old_ in db.objects {
      assert new_ in db'.objects && db'.objects[new_].state.EntryInsert? && new_ in db'.files.objects;
    } else {
      assert new_ in db.files.objects;
    }
  }

  lemma RenameKeepsInv(db: Db, old_: string, new_: string)
    requires Inv(db) && IsObjectName(db, old_) && !IsObjectName(db, new_)
    requires RenameSafe(db, old_, new_)
    ensures Inv(RenameObject(db, old_, new_).0)
  {
    var db' := RenameObject(db, old_, new_).0;
    assert OverlayOk(db') && RecordsOk(db'.files) && PendingRecordsOk(db');
  }

  lemma RenameWhenSafe(db: Db, old_: string, new_: string)
    requires Inv(db) && IsObjectName(db, old_) && !IsObjectName(db, new_)
    requires RenameSafe(db, old_, new_)
    ensures var (db', r) := RenameObject(db, old_, new_);
            r == Renamed && Inv(db') && Visible(db') == (Visible(db) - {old_})[new_ := Visible(db)[old_]]
  {
    var db' := RenameObject(db, old_, new_).0;
    RenameKeepsInv(db, old_, new_);
    VisibleShown(db);
    forall m | m != old_ && m != new_
      ensures IsObjectName(db', m) == IsObjectName(db, m)
      ensures IsObjectName(db, m) ==> ObjectNamed(db', m) == ObjectNamed(db, m) {}
    ObjectsShown(db', (Visible(db) - {old_})[new_ := Visible(db)[old_]]);
  }

  /** A pending update moved to a new name: the old name is back, and the entry has no record. */
  lemma RenameLosesUpdate()
    ensures exists db, old_, new_ ::
              && Inv(db) && IsObjectName(db, old_) && !IsObjectName(db, new_)
              && var (db', r) := RenameObject(db, old_, new_);
                 r == Renamed && IsObjectName(db', old_) && !OverlayOk(db')
  {
    var fs := Files(map[], map["a" := ObjectRecord("", "int", true, 1)], map[1 := 7], 2);
    var db := UpdateObject(Db(map[], map[], fs), "a", 8).0;
    UpdateObjectRefines(Db(map[], map[], fs), "a", 8);
    var (db', r) := RenameObject(db, "a", "b");
    assert "b" in db'.objects && db'.objects["b"].state.EntryUpdate? && "b" !in db'.files.objects;
  }
}
