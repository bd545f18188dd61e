/**
 The catalog object. Its methods update the pending maps and the files the way the program
 does, and each is proved to compute the state function of the same name.
 */
module SecondoCatalogs {
  import opened CatalogState
  import opened CatalogOperations
  import opened CatalogCommit
  import State = CatalogState

  /** An entry of a listing. */
  datatype TypeItem = TypeItem(name: string, typeExpr: string)
  datatype ObjectItem = ObjectItem(name: string, view: ObjectView)

  /** The listing names each name of `m` once and gives it what `m` gives it. */
  ghost predicate ListsTypes(items: seq<TypeItem>, m: map<string, string>) {
    && (forall i | 0 <= i < |items| :: items[i].name in m && items[i].typeExpr == m[items[i].name])
    && (forall i, j | 0 <= i < j < |items| :: items[i].name != items[j].name)
    && (forall n | n in m :: exists i :: 0 <= i < |items| && items[i].name == n)
  }

  ghost predicate ListsObjects(items: seq<ObjectItem>, m: map<string, ObjectView>) {
    && (forall i | 0 <= i < |items| :: items[i].name in m && items[i].view == m[items[i].name])
    && (forall i, j | 0 <= i < j < |items| :: items[i].name != items[j].name)
    && (forall n | n in m :: exists i :: 0 <= i < |items| && items[i].name == n)
  }

  lemma TypesSnoc(items: seq<TypeItem>, m: map<string, string>, n: string, e: string)
    requires ListsTypes(items, m) && n !in m
    ensures ListsTypes(items + [TypeItem(n, e)], m[n := e])
  {
    var items' := items + [TypeItem(n, e)];
    assert items'[|items|].name == n;
    forall k | k in m ensures exists i :: 0 <= i < |items'| && items'[i].name == k {
      var i :| 0 <= i < |items| && items[i].name == k;
      assert items'[i].name == k;
    }
  }

  lemma ObjectsSnoc(items: seq<ObjectItem>, m: map<string, ObjectView>, n: string, v: ObjectView)
    requires ListsObjects(items, m) && n !in m
    ensures ListsObjects(items + [ObjectItem(n, v)], m[n := v])
  {
    var items' := items + [ObjectItem(n, v)];
    assert items'[|items|].name == n;
    forall k | k in m ensures exists i :: 0 <= i < |items'| && items'[i].name == k {
      var i :| 0 <= i < |items| && items[i].name == k;
      assert items'[i].name == k;
    }
  }

  class SecondoCatalog {
    var types: map<string, TypeEntry>
    var objects: map<string, ObjectEntry>
    var typeCatalogFile: map<string, string>
    var objCatalogFile: map<string, ObjectRecord>
    var objValueFile: map<RecordId, Value>
    var nextRecord: RecordId

    constructor ()
      ensures Current() == Db(map[], map[], EMPTYFILES)
    {
      types, objects := map[], map[];
      typeCatalogFile, objCatalogFile, objValueFile, nextRecord := map[], map[], map[], 1;
    }

    ghost function CurrentFiles(): Files
      reads this
    {
      Files(typeCatalogFile, objCatalogFile, objValueFile, nextRecord)
    }

    ghost function Current(): Db
      reads this
    {
      Db(types, objects, CurrentFiles())
    }

    // ------------------------------------------------------------------- types

    method InsertType(typeName: string, typeExpr: string) returns (ok: bool)
      modifies this`types
      ensures (Current(), ok) == State.InsertType(old(Current()), typeName, typeExpr)
    {
      ok := false;
      if typeName in types {
        if types[typeName].state == EntryDelete {
          types := types[typeName := TypeEntry(EntryUpdate, typeExpr)];
          ok := true;
        }
      } else if typeName !in typeCatalogFile {
        types := types[typeName := TypeEntry(EntryInsert, typeExpr)];
        ok := true;
      }
    }

    method TypeUsedByObject(typeName: string) returns (used: bool)
      ensures used == State.TypeUsedByObject(Current(), typeName)
    {
      used := false;
      var rest := objects.Keys;
      while !used && rest != {}
        invariant rest <= objects.Keys
        invariant used ==> State.TypeUsedByObject(Current(), typeName)
        invariant !used ==> forall k | k in objects && k !in rest ::
                    objects[k].state.EntryDelete? || objects[k].typeName != typeName
        decreases !used, |rest|
      {
        var k :| k in rest;
        rest := rest - {k};
        used := objects[k].state != EntryDelete && objects[k].typeName == typeName;
      }
      if !used {
        var keys := objCatalogFile.Keys;
        while !used && keys != {}
          invariant keys <= objCatalogFile.Keys
          invariant used ==> State.TypeUsedByObject(Current(), typeName)
          invariant !used ==> forall k | k in objCatalogFile && k !in keys ::
                      typeName == "" || objCatalogFile[k].typeName != typeName
          decreases !used, |keys|
        {
          var k :| k in keys;
          keys := keys - {k};
          if objCatalogFile[k].typeName != "" {
            used := typeName == objCatalogFile[k].typeName;
          }
        }
      }
    }

    method DeleteType(typeName: string) returns (rc: int)
      modifies this`types
      ensures (Current(), rc) == State.DeleteType(old(Current()), typeName)
    {
      rc := 0;
      if typeName in types {
        if types[typeName].state != EntryDelete {
          var used := TypeUsedByObject(typeName);
          if used {
            rc := 1;
          } else if types[typeName].state == EntryUpdate {
            types := types[typeName := types[typeName].(state := EntryDelete)];
          } else {
            types := types - {typeName};
          }
        } else {
          rc := 2;
        }
      } else if typeName in typeCatalogFile {
        var used := TypeUsedByObject(typeName);
        if used {
          rc := 1;
        } else {
          types := types[typeName := TypeEntry(EntryDelete, typeCatalogFile[typeName])];
        }
      } else {
        rc := 2;
      }
    }

    /** The types in the file that are not pending, then the pending ones. */
    method ListTypes() returns (items: seq<TypeItem>)
      requires Inv(Current())
      ensures ListsTypes(items, VisibleTypes(Current()))
    {
      ghost var shown;
      items, shown := ListStoredTypes();
      items := AddPendingTypes(items, shown);
    }

    /** The types of the file for which nothing is pending. */
    method ListStoredTypes() returns (items: seq<TypeItem>, ghost shown: map<string, string>)
      requires Inv(Current())
      ensures ListsTypes(items, shown)
      ensures forall k :: k in shown <==> k in typeCatalogFile && k !in types
      ensures forall k | k in shown :: k in VisibleTypes(Current()) && shown[k] == VisibleTypes(Current())[k]
    {
      items, shown := [], map[];
      ghost var m := VisibleTypes(Current());
      var keys := typeCatalogFile.Keys;
      while keys != {}
        invariant keys <= typeCatalogFile.Keys
        invariant ListsTypes(items, shown) && (forall k | k in shown :: k in m && shown[k] == m[k])
        invariant forall k :: k in shown <==> k in typeCatalogFile && k !in keys && k !in types
      {
        var n :| n in keys;
        keys := keys - {n};
        if n !in types || (types[n].state != EntryDelete && types[n].state != EntryUpdate) {
          TypesSnoc(items, shown, n, typeCatalogFile[n]);
          items := items + [TypeItem(n, typeCatalogFile[n])];
          shown := shown[n := typeCatalogFile[n]];
        }
      }
    }

    /** Behind them the pending types that are inserted or updated. */
    method AddPendingTypes(stored: seq<TypeItem>, ghost storedMap: map<string, string>) returns (items: seq<TypeItem>)
      requires Inv(Current()) && ListsTypes(stored, storedMap)
      requires forall k :: k in storedMap <==> k in typeCatalogFile && k !in types
      requires forall k | k in storedMap :: k in VisibleTypes(Current()) && storedMap[k] == VisibleTypes(Current())[k]
      ensures ListsTypes(items, VisibleTypes(Current()))
    {
      items := stored;
      ghost var m := VisibleTypes(Current());
      ghost var shown := storedMap;
      var rest := types.Keys;
      while rest != {}
        invariant rest <= types.Keys
        invariant ListsTypes(items, shown) && (forall k | k in shown :: k in m && shown[k] == m[k])
        invariant forall k :: k in shown <==> k in m && k !in rest
      {
        var n :| n in rest;
        rest := rest - {n};
        if types[n].state == EntryInsert || types[n].state == EntryUpdate {
          TypesSnoc(items, shown, n, types[n].typeExpr);
          items := items + [TypeItem(n, types[n].typeExpr)];
          shown := shown[n := types[n].typeExpr];
        }
      }
      assert shown == m;
    }

    // ----------------------------------------------------------------- objects

    method InsertObject(objectName: string, typeName: string, typeExpr: string, valueWord: Value, isDefined: bool)
      returns (ok: bool)
      modifies this`objects
      ensures (Current(), ok) == State.InsertObject(old(Current()), objectName, typeName, typeExpr, valueWord, isDefined)
    {
      ok := false;
      if objectName in objects {
        if objects[objectName].state == EntryDelete {
          objects := objects[objectName := ObjectEntry(EntryUpdate, typeName, typeExpr, valueWord, isDefined, 0)];
          ok := true;
        }
      } else if objectName !in objCatalogFile {
        objects := objects[objectName := ObjectEntry(EntryInsert, typeName, typeExpr, valueWord, isDefined, 0)];
        ok := true;
      }
    }

    /** Reads an object from the pending entries or from the files. */
    method GetObjectExpr(objectName: string) returns (view: Option<ObjectView>)
      ensures view == if objectName in Visible(Current()) then Some(Visible(Current())[objectName]) else None
    {
      view := None;
      if objectName in objects {
        var e := objects[objectName];
        if e.state != EntryDelete {
          view := Some(ObjectView(e.typeName, e.typeExpr, if e.valueDefined then Some(e.value) else None));
        }
      } else if objectName in objCatalogFile {
        var r := objCatalogFile[objectName];
        var value: Option<Value> := None;
        if r.valueDefined {
          value := Some(if r.recordId in objValueFile then objValueFile[r.recordId] else 0);
        }
        view := Some(ObjectView(r.typeName, r.typeExpr, value));
      }
    }

    method DeleteObject(objectName: string) returns (ok: bool)
      modifies this`objects
      ensures (Current(), ok) == State.DeleteObject(old(Current()), objectName)
    {
      ok := false;
      if objectName in objects {
        if objects[objectName].state != EntryDelete {
          ok := true;
          if objects[objectName].state == EntryInsert {
            objects := objects - {objectName};
          } else {
            objects := objects[objectName := objects[objectName].(state := EntryDelete)];
          }
        }
      } else {
        var view := GetObjectExpr(objectName);
        if view.Some? {
          var v := view.value;
          var value := if v.value.Some? then v.value.value else 0;
          objects := objects[objectName := ObjectEntry(EntryDelete, v.typeName, v.typeExpr, value, v.value.Some?, 0)];
          ok := true;
        }
      }
    }

    method KillObject(objectName: string) returns (ok: bool)
      modifies this`objects, this`objCatalogFile, this`objValueFile
      ensures (Current(), ok) == State.KillObject(old(Current()), objectName)
    {
      ok := false;
      if objectName in objects {
        if objects[objectName].state != EntryDelete {
          ok := true;
          if objects[objectName].state == EntryInsert {
            objects := objects - {objectName};
          } else {
            objects := objects[objectName := objects[objectName].(state := EntryDelete)];
          }
        }
      } else if objectName in objCatalogFile {
        var valueRecId := objCatalogFile[objectName].recordId;
        objCatalogFile := objCatalogFile - {objectName};
        ok := true;
        if valueRecId != 0 {
          ok := valueRecId in objValueFile;
          objValueFile := objValueFile - {valueRecId};
        }
      }
    }

    method UpdateObject(objectName: string, value: Value) returns (found: bool)
      modifies this`objects
      ensures (Current(), found) == State.UpdateObject(old(Current()), objectName, value)
    {
      found := false;
      if objectName in objects {
        if objects[objectName].state != EntryDelete {
          objects := objects[objectName := objects[objectName].(value := value, valueDefined := true)];
          found := true;
        }
      } else if objectName in objCatalogFile {
        var r := objCatalogFile[objectName];
        objects := objects[objectName := ObjectEntry(EntryUpdate, r.typeName, r.typeExpr, value, true, r.recordId)];
        found := true;
      }
    }

    method ModifyObject(objectName: string, value: Value) returns (found: bool)
      requires objectName in objects ==> !objects[objectName].state.EntryDelete?
      modifies this`objects
      ensures (Current(), found) == State.ModifyObject(old(Current()), objectName, value)
    {
      found := false;
      if objectName in objects {
        assert objects[objectName].state != EntryDelete;
        objects := objects[objectName := objects[objectName].(value := value, valueDefined := true)];
        found := true;
      } else if objectName in objCatalogFile {
        var r := objCatalogFile[objectName];
        objects := objects[objectName := ObjectEntry(EntryUpdate, r.typeName, r.typeExpr, value, true, r.recordId)];
        found := true;
      }
    }

    method RenameObject(oldName: string, newName: string) returns (r: RenameResult)
      modifies this`objects, this`objCatalogFile
      ensures (Current(), r) == State.RenameObject(old(Current()), oldName, newName)
    {
      var newView := GetObjectExpr(newName);
      if newView.Some? {
        return NameUsed;
      }
      var oldView := GetObjectExpr(oldName);
      if oldView.None? {
        return UnknownObject;
      }
      r := Renamed;
      if oldName in objects {
        var entry := objects[oldName];
        objects := objects - {oldName};
        objects := objects[newName := entry];
      } else {
        var rec := objCatalogFile[oldName];
        objCatalogFile := objCatalogFile - {oldName};
        if newName in objCatalogFile {
          r := CatalogError;
        } else {
          objCatalogFile := objCatalogFile[newName := rec];
        }
      }
    }

    method ListObjects() returns (items: seq<ObjectItem>)
      requires Inv(Current())
      ensures ListsObjects(items, Visible(Current()))
    {
      ghost var shown;
      items, shown := ListStoredObjects();
      items := AddPendingObjects(items, shown);
    }

    /** The objects of the file for which nothing is pending. */
    method ListStoredObjects() returns (items: seq<ObjectItem>, ghost shown: map<string, ObjectView>)
      requires Inv(Current())
      ensures ListsObjects(items, shown)
      ensures forall k :: k in shown <==> k in objCatalogFile && k !in objects
      ensures forall k | k in shown :: k in Visible(Current()) && shown[k] == Visible(Current())[k]
    {
      items, shown := [], map[];
      ghost var m := Visible(Current());
      var keys := objCatalogFile.Keys;
      while keys != {}
        invariant keys <= objCatalogFile.Keys
        invariant ListsObjects(items, shown) && (forall k | k in shown :: k in m && shown[k] == m[k])
        invariant forall k :: k in shown <==> k in objCatalogFile && k !in keys && k !in objects
      {
        var n :| n in keys;
        keys := keys - {n};
        if n !in objects || (objects[n].state != EntryDelete && objects[n].state != EntryUpdate) {
          var view := GetObjectExpr(n);
          ObjectsSnoc(items, shown, n, view.value);
          items := items + [ObjectItem(n, view.value)];
          shown := shown[n := view.value];
        }
      }
    }

    /** Behind them the pending objects that are inserted or updated. */
    method AddPendingObjects(stored: seq<ObjectItem>, ghost storedMap: map<string, ObjectView>) returns (items: seq<ObjectItem>)
      requires Inv(Current()) && ListsObjects(stored, storedMap)
      requires forall k :: k in storedMap <==> k in objCatalogFile && k !in objects
      requires forall k | k in storedMap :: k in Visible(Current()) && storedMap[k] == Visible(Current())[k]
      ensures ListsObjects(items, Visible(Current()))
    {
      items := stored;
      ghost var m := Visible(Current());
      ghost var shown := storedMap;
      var rest := objects.Keys;
      while rest != {}
        invariant rest <= objects.Keys
        invariant ListsObjects(items, shown) && (forall k | k in shown :: k in m && shown[k] == m[k])
        invariant forall k :: k in shown <==> k in m && k !in rest
      {
        var n :| n in rest;
        rest := rest - {n};
        if objects[n].state == EntryInsert || objects[n].state == EntryUpdate {
          var e := objects[n];
          var view := ObjectView(e.typeName, e.typeExpr, if e.valueDefined then Some(e.value) else None);
          ObjectsSnoc(items, shown, n, view);
          items := items + [ObjectItem(n, view)];
          shown := shown[n := view];
        }
      }
      assert shown == m;
    }

    // ------------------------------------------------------ commit and abort

    /**
     Ends a transaction: folds the pending entries into the files unless `revert` is set, and
     forgets them. The orders in which the passes met the entries are returned for the record.
     */
    method CleanUp(revert: bool) returns (ok: bool, ghost ts: seq<string>, ghost os: seq<string>, ghost done: seq<string>)
      requires Inv(Current())
      modifies this
      ensures ok && types == map[] && objects == map[]
      ensures revert ==> CurrentFiles() == old(CurrentFiles())
      ensures !revert ==>
                && Enumerates(ts, old(types.Keys)) && Enumerates(os, old(objects.Keys)) && Enumerates(done, old(objects.Keys))
                && (CurrentFiles(), ok) == Committed(old(Current()), ts, os, done)
      ensures !revert ==>
                && Inv(Current())
                && Visible(Current()) == old(Visible(Current()))
                && VisibleTypes(Current()) == old(VisibleTypes(Current()))
    {
      ok, ts, os, done := true, [], [], [];
      ghost var db := Current();
      if !revert {
        ok, ts := WriteTypes(ok);
        ok, os := WriteObjects(ok, db, ts);
        PrefixDone(db, ts, os, []);
        assert Seen([]) == {};
        ok, done := WriteValues(ok, db);
        CommitRefines(db, ts, os, done);
      }
      types, objects := map[], map[];
    }

    /**
     The pass over the pending types. The flag `ok` is handed on from step to step, and a delete
     overwrites it; it is right all the same, because every entry is accepted by the file.
     */
    method WriteTypes(ok0: bool) returns (ok: bool, ghost ts: seq<string>)
      requires Inv(Current())
      modifies this`typeCatalogFile
      ensures Enumerates(ts, types.Keys)
      ensures CurrentFiles() == TypesPass(old(Current()), ts).0
      ensures ok0 ==> ok == TypesPass(old(Current()), ts).1
    {
      ok, ts := ok0, [];
      ghost var db := Current();
      var rest := types.Keys;
      while rest != {}
        invariant rest <= types.Keys && Distinct(ts) && Seen(ts) == types.Keys - rest
        invariant (forall i | 0 <= i < |ts| :: ts[i] in types)
        invariant CurrentFiles() == TypesPass(db, ts).0 && (ok0 ==> ok == TypesPass(db, ts).1)
      {
        var n :| n in rest;
        SeenAppend(ts, n);
        TypesPassDone(db, ts);
        TypesPassDone(db, ts + [n]);
        ok := WriteType(ok, n);
        rest := rest - {n};
        ts := ts + [n];
        assert Seen(ts) == types.Keys - rest;
      }
      SeenAll(ts, types.Keys);
    }

    method WriteType(ok0: bool, n: string) returns (ok: bool)
      requires n in types
      modifies this`typeCatalogFile
      ensures CurrentFiles() == TypeStep(old(CurrentFiles()), n, types[n]).0
      ensures ok == (TypeStep(old(CurrentFiles()), n, types[n]).1 && (ok0 || types[n].state.EntryDelete?))
    {
      ok := ok0;
      match types[n].state
      case EntryInsert =>
        if n !in typeCatalogFile {
          typeCatalogFile := typeCatalogFile[n := types[n].typeExpr];
        } else {
          ok := false;
        }
      case EntryUpdate =>
        if n in typeCatalogFile {
          typeCatalogFile := typeCatalogFile[n := types[n].typeExpr];
        } else {
          ok := false;
        }
      case EntryDelete =>
        ok := n in typeCatalogFile;
        if ok {
          typeCatalogFile := typeCatalogFile - {n};
        }
    }

    /** The first pass over the pending objects: types, but no values. */
    method WriteObjects(ok0: bool, ghost db: Db, ghost ts: seq<string>) returns (ok: bool, ghost os: seq<string>)
      requires Inv(db) && db.types == types && db.objects == objects && Enumerates(ts, types.Keys)
      requires CurrentFiles() == TypesPass(db, ts).0
      modifies this`objCatalogFile, this`objValueFile
      ensures Enumerates(os, objects.Keys)
      ensures CurrentFiles() == FirstPass(db, TypesPass(db, ts).0, os).0
      ensures ok == (ok0 && FirstPass(db, TypesPass(db, ts).0, os).1)
    {
      ok, os := ok0, [];
      ghost var fs0 := CurrentFiles();
      TypesPassDone(db, ts);
      var rest := objects.Keys;
      while rest != {}
        invariant rest <= objects.Keys && Distinct(os) && Seen(os) == objects.Keys - rest
        invariant (forall i | 0 <= i < |os| :: os[i] in objects)
        invariant CurrentFiles() == FirstPass(db, fs0, os).0 && ok == (ok0 && FirstPass(db, fs0, os).1)
      {
        var n :| n in rest;
        SeenAppend(os, n);
        FirstPassDone(db, fs0, os + [n]);
        ok := WriteObject(ok, n);
        rest := rest - {n};
        os := os + [n];
        assert Seen(os) == objects.Keys - rest;
      }
      SeenAll(os, objects.Keys);
    }

    method WriteObject(ok0: bool, n: string) returns (ok: bool)
      requires n in objects
      modifies this`objCatalogFile, this`objValueFile
      ensures CurrentFiles() == FirstStep(old(CurrentFiles()), n, objects[n]).0
      ensures ok == (ok0 && FirstStep(old(CurrentFiles()), n, objects[n]).1)
    {
      ok := ok0;
      var e := objects[n];
      match e.state
      case EntryInsert =>
        if n !in objCatalogFile {
          objCatalogFile := objCatalogFile[n := ObjectRecord(e.typeName, e.typeExpr, false, 0)];
        } else {
          ok := false;
        }
      case EntryUpdate =>
        if n in objCatalogFile {
          objCatalogFile := objCatalogFile[n := ObjectRecord(e.typeName, e.typeExpr, false, objCatalogFile[n].recordId)];
        } else {
          ok := false;
        }
      case EntryDelete =>
        if n in objCatalogFile {
          objCatalogFile := objCatalogFile - {n};
          if e.recordId != 0 {
            objValueFile := objValueFile - {e.recordId};
          }
        } else {
          ok := false;
        }
    }

    /** The second pass over the pending objects: their values. */
    method WriteValues(ok0: bool, ghost db: Db) returns (ok: bool, ghost done: seq<string>)
      requires Inv(db) && db.objects == objects && SecondDone(db, CurrentFiles(), {})
      modifies this`objCatalogFile, this`objValueFile, this`nextRecord
      ensures Enumerates(done, objects.Keys)
      ensures CurrentFiles() == SecondPass(db, old(CurrentFiles()), done).0
      ensures ok0 ==> ok == SecondPass(db, old(CurrentFiles()), done).1
    {
      ok, done := ok0, [];
      ghost var fs1 := CurrentFiles();
      var rest := objects.Keys;
      while rest != {}
        invariant rest <= objects.Keys && Distinct(done) && Seen(done) == objects.Keys - rest
        invariant (forall i | 0 <= i < |done| :: done[i] in objects)
        invariant CurrentFiles() == SecondPass(db, fs1, done).0 && (ok0 ==> ok == SecondPass(db, fs1, done).1)
      {
        var n :| n in rest;
        SeenAppend(done, n);
        SecondPassDone(db, fs1, done);
        SecondPassDone(db, fs1, done + [n]);
        ok := WriteValue(ok, n);
        rest := rest - {n};
        done := done + [n];
        assert Seen(done) == objects.Keys - rest;
      }
      SeenAll(done, objects.Keys);
    }

    method WriteValue(ok0: bool, n: string) returns (ok: bool)
      requires n in objects && RecordsOk(CurrentFiles())
      modifies this`objCatalogFile, this`objValueFile, this`nextRecord
      ensures CurrentFiles() == SecondStep(old(CurrentFiles()), n, objects[n]).0
      ensures ok == (SecondStep(old(CurrentFiles()), n, objects[n]).1 &&
                     (ok0 || (objects[n].state.EntryInsert? && objects[n].valueDefined)))
    {
      ok := ok0;
      var e := objects[n];
      match e.state
      case EntryInsert =>
        if n !in objCatalogFile {
          ok := false;
        } else if e.valueDefined {
          objCatalogFile := objCatalogFile[n := objCatalogFile[n].(valueDefined := true)];
          ok := AppendValue(n, e.value);
          assert objCatalogFile == old(objCatalogFile)[n := old(objCatalogFile)[n].(valueDefined := true, recordId := old(nextRecord))];
        }
      case EntryUpdate =>
        if n !in objCatalogFile {
          ok := false;
        } else {
          objCatalogFile := objCatalogFile[n := objCatalogFile[n].(valueDefined := e.valueDefined)];
          if e.valueDefined {
            if e.recordId == 0 {
              var _ := AppendValue(n, e.value);
              assert objCatalogFile == old(objCatalogFile)[n := old(objCatalogFile)[n].(valueDefined := true, recordId := old(nextRecord))];
            } else if e.recordId in objValueFile {
              objValueFile := objValueFile[e.recordId := e.value];
            }
          }
        }
      case EntryDelete =>
    }

    /** Records in use have numbers that were handed out. */
    ghost predicate HandedOut()
      reads this
    {
      && (forall id | id in objValueFile :: 0 < id < nextRecord)
      && forall m | m in objCatalogFile :: objCatalogFile[m].recordId < nextRecord
    }

    /** Appends a value record and enters its number, which is in use nowhere, in the catalog record of `n`. */
    method AppendValue(n: string, value: Value) returns (ok: bool)
      requires n in objCatalogFile && HandedOut()
      modifies this`objCatalogFile, this`objValueFile, this`nextRecord
      ensures objCatalogFile == old(objCatalogFile)[n := old(objCatalogFile)[n].(recordId := old(nextRecord))]
      ensures objValueFile == old(objValueFile)[old(nextRecord) := value] && nextRecord == old(nextRecord) + 1
      ensures old(nextRecord) !in old(objValueFile)
      ensures forall m | m in old(objCatalogFile) :: old(objCatalogFile[m].recordId) != old(nextRecord)
      ensures ok && HandedOut()
    {
      ok := true;
      objValueFile := objValueFile[nextRecord := value];
      objCatalogFile := objCatalogFile[n := objCatalogFile[n].(recordId := nextRecord)];
      nextRecord := nextRecord + 1;
    }
  }
}
