/**
 Transactions over the catalog, and saving and restoring a database: restoring a saved
 database rebuilds the catalog entry by entry, one transaction each.
 */
module SecondoSystems {
  import opened CatalogState
  import opened CatalogOperations
  import opened CatalogCommit
  import opened CatalogRuns
  import opened SecondoCatalogs

  // A nested list, as In and Out functions exchange it.
  type ListExpr = string

  const EMPTYLIST: ListExpr := "()"

  /** The type system and the In and Out functions of the algebras. */
  datatype Conversions = Conversions(
    kindCorrect: string -> bool,
    wrapped: string -> string, // the list whose one element is the type
    outObject: (string, Value) -> ListExpr,
    inObject: (string, ListExpr) -> Option<Value>)

  datatype SavedObject = SavedObject(name: string, typeName: string, typeExpr: string, valueList: ListExpr)

  datatype DatabaseFile = DatabaseFile(types: seq<TypeItem>, objects: seq<SavedObject>)

  /** What ListObjectsFull writes for one object. */
  function SaveObject(cv: Conversions, i: ObjectItem): SavedObject {
    SavedObject(i.name, i.view.typeName, i.view.typeExpr,
                if i.view.value.Some? then cv.outObject(i.view.typeExpr, i.view.value.value) else EMPTYLIST)
  }

  /** Every type is kind-correct and no name comes twice. */
  predicate TypesAccepted(cv: Conversions, items: seq<TypeItem>) {
    items == [] || (
      var i := items[|items| - 1];
      && TypesAccepted(cv, items[..|items| - 1])
      && cv.kindCorrect(i.typeExpr) && i.name !in RestoredTypes(cv, items[..|items| - 1]))
  }

  /** Every object has a kind-correct type and a value its In function takes. */
  predicate ObjectsAccepted(cv: Conversions, items: seq<SavedObject>) {
    forall i | 0 <= i < |items| ::
      cv.kindCorrect(items[i].typeExpr) && cv.inObject(items[i].typeExpr, items[i].valueList).Some?
  }

  // -------------------------------------------------- what restoring a file gives

  function RestoredTypes(cv: Conversions, items: seq<TypeItem>): map<string, string> {
    if items == [] then map[]
    else
      var m := RestoredTypes(cv, items[..|items| - 1]);
      var i := items[|items| - 1];
      if cv.kindCorrect(i.typeExpr) && i.name !in m then m[i.name := i.typeExpr] else m
  }

  function RestoredObjects(cv: Conversions, items: seq<SavedObject>): map<string, ObjectView> {
    if items == [] then map[]
    else
      var m := RestoredObjects(cv, items[..|items| - 1]);
      var i := items[|items| - 1];
      var v := cv.inObject(i.typeExpr, i.valueList);
      if cv.kindCorrect(i.typeExpr) && v.Some? && i.name !in m
      then m[i.name := ObjectView(i.typeName, i.typeExpr, v)] else m
  }

  /** The file holds the catalog: all its types, and its objects except the derived ones. */
  ghost predicate FileOf(cv: Conversions, f: DatabaseFile, ts: map<string, string>, os: map<string, ObjectView>,
                         isDerived: string -> bool)
  {
    ListsTypes(f.types, ts) && SavesObjects(cv, f.objects, os, isDerived)
  }

  /** What is saved of an object: of one that is still pending, the type stays wrapped in a list. */
  function AsSaved(cv: Conversions, db: Db): map<string, ObjectView> {
    var m := Visible(db);
    map n | n in m :: if n in db.objects then m[n].(typeExpr := cv.wrapped(m[n].typeExpr)) else m[n]
  }

  ghost predicate SavesObjects(cv: Conversions, saved: seq<SavedObject>, os: map<string, ObjectView>, isDerived: string -> bool) {
    exists items: seq<ObjectItem> ::
      ListsObjects(items, map n | n in os && !isDerived(n) :: os[n]) && saved == Saved(cv, items)
  }

  /** In undoes Out, and all types are kind-correct. */
  ghost predicate Convertible(cv: Conversions, ts: map<string, string>, os: map<string, ObjectView>) {
    && (forall n | n in ts :: cv.kindCorrect(ts[n]))
    && (forall n | n in os :: cv.kindCorrect(os[n].typeExpr))
    && forall e, v :: cv.inObject(e, cv.outObject(e, v)) == Some(v)
  }

  /** `shown` are the objects of `m` among `keys` that are not derived. */
  ghost predicate Shows(shown: map<string, ObjectView>, m: map<string, ObjectView>, keys: set<string>, isDerived: string -> bool) {
    && (forall n :: n in shown <==> n in m && n in keys && !isDerived(n))
    && (forall n | n in shown :: shown[n] == m[n])
  }

  lemma ShowsMore(shown: map<string, ObjectView>, m: map<string, ObjectView>, rest: set<string>, isDerived: string -> bool, n: string)
    requires Shows(shown, m, m.Keys - rest, isDerived) && n in rest
    ensures Shows(if n in m && !isDerived(n) then shown[n := m[n]] else shown, m, m.Keys - (rest - {n}), isDerived)
  {}

  lemma ShowsAll(shown: map<string, ObjectView>, m: map<string, ObjectView>, rest: set<string>, isDerived: string -> bool)
    requires Shows(shown, m, m.Keys - rest, isDerived) && rest == {}
    ensures shown == map n | n in m && !isDerived(n) :: m[n]
  {}

  /** A catalog that survives saving and restoring. */
  ghost predicate Complete(cv: Conversions, ts: map<string, string>, os: map<string, ObjectView>, isDerived: string -> bool) {
    Convertible(cv, ts, os) && forall n | n in os :: os[n].value.Some? && !isDerived(n)
  }

  lemma TypesInit(items: seq<TypeItem>, m: map<string, string>)
    requires items != [] && ListsTypes(items, m)
    ensures var k := |items| - 1; ListsTypes(items[..k], m - {items[k].name})
  {
    var k := |items| - 1;
    forall n | n in m && n != items[k].name ensures exists i :: 0 <= i < k && items[..k][i].name == n {
      var i :| 0 <= i < |items| && items[i].name == n;
      assert items[..k][i].name == n;
    }
  }

  lemma ObjectsInit(items: seq<ObjectItem>, m: map<string, ObjectView>)
    requires items != [] && ListsObjects(items, m)
    ensures var k := |items| - 1; ListsObjects(items[..k], m - {items[k].name})
  {
    var k := |items| - 1;
    forall n | n in m && n != items[k].name ensures exists i :: 0 <= i < k && items[..k][i].name == n {
      var i :| 0 <= i < |items| && items[i].name == n;
      assert items[..k][i].name == n;
    }
  }

  lemma PutBack<K, V>(m: map<K, V>, k: K)
    requires k in m
    ensures (m - {k})[k := m[k]] == m
  {}

  lemma {:induction false} TypesRestored(cv: Conversions, items: seq<TypeItem>, ts: map<string, string>)
    requires ListsTypes(items, ts) && forall n | n in ts :: cv.kindCorrect(ts[n])
    ensures RestoredTypes(cv, items) == ts && TypesAccepted(cv, items)
    decreases |items|
  {
    if items == [] {
      assert ts.Keys == {};
    } else {
      var i := items[|items| - 1];
      TypesInit(items, ts);
      TypesRestored(cv, items[..|items| - 1], ts - {i.name});
      PutBack(ts, i.name);
    }
  }

  function Saved(cv: Conversions, items: seq<ObjectItem>): (r: seq<SavedObject>)
    ensures |r| == |items|
  {
    seq(|items|, i requires 0 <= i < |items| => SaveObject(cv, items[i]))
  }

  lemma SavedSnoc(cv: Conversions, items: seq<ObjectItem>, item: ObjectItem)
    ensures Saved(cv, items + [item]) == Saved(cv, items) + [SaveObject(cv, item)]
  {}

  lemma ObjectsTaken(cv: Conversions, items: seq<ObjectItem>, os: map<string, ObjectView>)
    requires ListsObjects(items, os)
    requires forall n | n in os :: cv.kindCorrect(os[n].typeExpr) && os[n].value.Some?
    requires forall e, v :: cv.inObject(e, cv.outObject(e, v)) == Some(v)
    ensures ObjectsAccepted(cv, Saved(cv, items))
  {
    var f := Saved(cv, items);
    forall j | 0 <= j < |f|
      ensures cv.kindCorrect(f[j].typeExpr) && cv.inObject(f[j].typeExpr, f[j].valueList).Some?
    {
      assert items[j].name in os && f[j] == SaveObject(cv, items[j]);
      assert items[j].view == os[items[j].name];
      var v := items[j].view.value.value;
      assert f[j].valueList == cv.outObject(f[j].typeExpr, v);
      assert cv.inObject(f[j].typeExpr, cv.outObject(f[j].typeExpr, v)) == Some(v);
    }
  }

  lemma {:induction false} ObjectsRestored(cv: Conversions, items: seq<ObjectItem>, os: map<string, ObjectView>)
    requires ListsObjects(items, os)
    requires forall n | n in os :: cv.kindCorrect(os[n].typeExpr) && os[n].value.Some?
    requires forall e, v :: cv.inObject(e, cv.outObject(e, v)) == Some(v)
    ensures RestoredObjects(cv, Saved(cv, items)) == os
    decreases |items|
  {
    if items == [] {
      assert os.Keys == {};
    } else {
      var k := |items| - 1;
      ObjectsInit(items, os);
      ObjectsRestored(cv, items[..k], os - {items[k].name});
      LastRestored(cv, items, os);
    }
  }

  lemma LastRestored(cv: Conversions, items: seq<ObjectItem>, os: map<string, ObjectView>)
    requires items != [] && items[|items| - 1].name in os && items[|items| - 1].view == os[items[|items| - 1].name]
    requires var v := items[|items| - 1].view; cv.kindCorrect(v.typeExpr) && v.value.Some?
    requires forall e, v :: cv.inObject(e, cv.outObject(e, v)) == Some(v)
    requires RestoredObjects(cv, Saved(cv, items[..|items| - 1])) == os - {items[|items| - 1].name}
    ensures RestoredObjects(cv, Saved(cv, items)) == os
  {
    var k := |items| - 1;
    var i := items[k];
    var f := Saved(cv, items);
    assert f[..k] == Saved(cv, items[..k]);
    assert f[k] == SaveObject(cv, i);
    var v := i.view.value.value;
    assert cv.inObject(i.view.typeExpr, cv.outObject(i.view.typeExpr, v)) == Some(v);
    assert RestoredObjects(cv, f) == (os - {i.name})[i.name := i.view];
    assert (os - {i.name})[i.name := i.view] == os;
  }

  lemma AcceptedSnoc(cv: Conversions, f: seq<SavedObject>, k: nat)
    requires k < |f|
    ensures ObjectsAccepted(cv, f[..k + 1]) <==>
              ObjectsAccepted(cv, f[..k]) && cv.kindCorrect(f[k].typeExpr) && cv.inObject(f[k].typeExpr, f[k].valueList).Some?
  {
    assert forall i | 0 <= i < k :: f[..k + 1][i] == f[..k][i];
    assert f[..k + 1][k] == f[k];
  }

  /** What the object after the first `k` adds. */
  lemma RestoredSnoc(cv: Conversions, f: seq<SavedObject>, k: nat)
    requires k < |f|
    ensures var m := RestoredObjects(cv, f[..k]);
            var v := cv.inObject(f[k].typeExpr, f[k].valueList);
            RestoredObjects(cv, f[..k + 1]) ==
              if cv.kindCorrect(f[k].typeExpr) && v.Some? && f[k].name !in m
              then m[f[k].name := ObjectView(f[k].typeName, f[k].typeExpr, v)] else m
  {
    assert f[..k + 1][..k] == f[..k];
  }

  /** Restored objects are defined, and come from the file. */
  lemma {:induction false} RestoredFromFile(cv: Conversions, f: seq<SavedObject>, n: string)
    requires n in RestoredObjects(cv, f)
    ensures RestoredObjects(cv, f)[n].value.Some? 
    ensures exists i :: 0 <= i < |f| && f[i].name == n && cv.kindCorrect(f[i].typeExpr)
    decreases |f|
  {
    if n in RestoredObjects(cv, f[..|f| - 1]) {
      RestoredFromFile(cv, f[..|f| - 1], n);
      var i :| 0 <= i < |f| - 1 && f[..|f| - 1][i].name == n && cv.kindCorrect(f[..|f| - 1][i].typeExpr);
      assert f[i].name == n && cv.kindCorrect(f[i].typeExpr);
    } else {
      assert f[|f| - 1].name == n && cv.kindCorrect(f[|f| - 1].typeExpr);
    }
  }

  // ------------------------------------------------------------- entry by entry

  /** The entry can be entered if its name is new. */
  predicate GoodType(cv: Conversions, i: TypeItem) { cv.kindCorrect(i.typeExpr) }

  predicate GoodObject(cv: Conversions, i: SavedObject) {
    cv.kindCorrect(i.typeExpr) && cv.inObject(i.typeExpr, i.valueList) != None
  }

  /** Each name gets the type of its first entry that is kind-correct, and no other name gets one. */
  lemma {:induction false} RestoredTypesExactly(cv: Conversions, f: seq<TypeItem>, n: string)
    ensures n in RestoredTypes(cv, f) <==> exists i :: 0 <= i < |f| && f[i].name == n && GoodType(cv, f[i])
    ensures forall i | 0 <= i < |f| && f[i].name == n && GoodType(cv, f[i])
                       && (forall j | 0 <= j < i :: !(f[j].name == n && GoodType(cv, f[j]))) ::
              n in RestoredTypes(cv, f) && RestoredTypes(cv, f)[n] == f[i].typeExpr
    decreases |f|
  {
    if f != [] {
      var k := |f| - 1;
      RestoredTypesExactly(cv, f[..k], n);
      assert forall i | 0 <= i < k :: f[..k][i] == f[i];
      if n in RestoredTypes(cv, f[..k]) {
        var i :| 0 <= i < k && f[..k][i].name == n && GoodType(cv, f[..k][i]);
        assert f[i].name == n && GoodType(cv, f[i]);
      }
    }
  }

  /** Nothing is reported exactly if all types are kind-correct and no name comes twice. */
  lemma {:induction false} TypesAcceptedExactly(cv: Conversions, f: seq<TypeItem>)
    ensures TypesAccepted(cv, f) <==>
              && (forall i | 0 <= i < |f| :: GoodType(cv, f[i]))
              && (forall i, j | 0 <= i < j < |f| :: f[i].name != f[j].name)
    decreases |f|
  {
    if f != [] {
      var k := |f| - 1;
      TypesAcceptedExactly(cv, f[..k]);
      RestoredTypesExactly(cv, f[..k], f[k].name);
      assert forall i | 0 <= i < k :: f[..k][i] == f[i];
      if TypesAccepted(cv, f) {
        forall i | 0 <= i < k ensures f[i].name != f[k].name {
          assert f[..k][i] == f[i] && GoodType(cv, f[i]);
        }
      }
    }
  }

  /** Each name gets the object of its first entry that is accepted, and no other name gets one. */
  lemma {:induction false} RestoredObjectsExactly(cv: Conversions, f: seq<SavedObject>, n: string)
    ensures n in RestoredObjects(cv, f) <==> exists i :: 0 <= i < |f| && f[i].name == n && GoodObject(cv, f[i])
    ensures forall i | 0 <= i < |f| && f[i].name == n && GoodObject(cv, f[i])
                       && (forall j | 0 <= j < i :: !(f[j].name == n && GoodObject(cv, f[j]))) ::
              && n in RestoredObjects(cv, f)
              && RestoredObjects(cv, f)[n] == ObjectView(f[i].typeName, f[i].typeExpr, cv.inObject(f[i].typeExpr, f[i].valueList))
    decreases |f|
  {
    if f != [] {
      var k := |f| - 1;
      RestoredObjectsExactly(cv, f[..k], n);
      assert forall i | 0 <= i < k :: f[..k][i] == f[i];
      if n in RestoredObjects(cv, f[..k]) {
        var i :| 0 <= i < k && f[..k][i].name == n && GoodObject(cv, f[..k][i]);
        assert f[i].name == n && GoodObject(cv, f[i]);
      }
    }
  }

  /** What stands in the file: of each object that is not derived one entry, an undefined one with the empty list. */
  lemma SavedEntries(cv: Conversions, f: seq<SavedObject>, os: map<string, ObjectView>, isDerived: string -> bool)
    requires SavesObjects(cv, f, os, isDerived)
    ensures forall i | 0 <= i < |f| ::
              && f[i].name in os && !isDerived(f[i].name)
              && var v := os[f[i].name];
                 && f[i].typeName == v.typeName && f[i].typeExpr == v.typeExpr
                 && (v.value.None? ==> f[i].valueList == EMPTYLIST)
                 && (v.value.Some? ==> f[i].valueList == cv.outObject(v.typeExpr, v.value.value))
    ensures forall i, j | 0 <= i < j < |f| :: f[i].name != f[j].name
    ensures forall n | n in os && !isDerived(n) :: exists i :: 0 <= i < |f| && f[i].name == n
  {
    var kept := map n | n in os && !isDerived(n) :: os[n];
    var items: seq<ObjectItem> :| ListsObjects(items, kept) && f == Saved(cv, items);
    forall n | n in os && !isDerived(n) ensures exists i :: 0 <= i < |f| && f[i].name == n {
      assert n in kept;
      var i :| 0 <= i < |items| && items[i].name == n;
      assert f[i].name == n;
    }
  }

  /** Save and restore undo each other exactly when nothing is undefined and nothing derived. */
  lemma {:induction false} SaveRestoreExact(cv: Conversions, f: DatabaseFile, ts: map<string, string>, os: map<string, ObjectView>,
                                            isDerived: string -> bool)
    requires FileOf(cv, f, ts, os, isDerived) && Convertible(cv, ts, os)
    ensures RestoredTypes(cv, f.types) == ts && TypesAccepted(cv, f.types)
    ensures Complete(cv, ts, os, isDerived) ==> ObjectsAccepted(cv, f.objects)
    ensures RestoredObjects(cv, f.objects) == os <==> Complete(cv, ts, os, isDerived)
  {
    TypesRestored(cv, f.types, ts);
    var kept := map n | n in os && !isDerived(n) :: os[n];
    var items: seq<ObjectItem> :| ListsObjects(items, kept) && f.objects == Saved(cv, items);
    if Complete(cv, ts, os, isDerived) {
      assert kept == os;
      ObjectsRestored(cv, items, os);
      ObjectsTaken(cv, items, os);
    } else {
      var n :| n in os && (os[n].value.None? || isDerived(n));
      if n in RestoredObjects(cv, f.objects) {
        RestoredIsKept(cv, items, kept, n);
      }
    }
  }

  /**
   Objects that are still pending do not survive: if wrapped types are not types, restoring
   gives back what was visible exactly if the catalog is complete and nothing visible is pending.
   */
  lemma {:induction false} PendingAreLostExactly(cv: Conversions, f: DatabaseFile, ts: map<string, string>, db: Db,
                                                 isDerived: string -> bool)
    requires FileOf(cv, f, ts, AsSaved(cv, db), isDerived) && Convertible(cv, ts, Visible(db))
    requires forall e :: !cv.kindCorrect(cv.wrapped(e))
    ensures RestoredObjects(cv, f.objects) == Visible(db) <==>
              Complete(cv, ts, Visible(db), isDerived) && forall n | n in Visible(db) :: n !in db.objects
  {
    if n :| n in Visible(db) && n in db.objects {
      PendingIsLost(cv, f, ts, db, isDerived, n);
    } else {
      assert AsSaved(cv, db) == Visible(db);
      SaveRestoreExact(cv, f, ts, Visible(db), isDerived);
    }
  }

  lemma PendingIsLost(cv: Conversions, f: DatabaseFile, ts: map<string, string>, db: Db, isDerived: string -> bool, n: string)
    requires FileOf(cv, f, ts, AsSaved(cv, db), isDerived) && forall e :: !cv.kindCorrect(cv.wrapped(e))
    requires n in Visible(db) && n in db.objects
    ensures n !in RestoredObjects(cv, f.objects)
  {
    var os := AsSaved(cv, db);
    var kept := map k | k in os && !isDerived(k) :: os[k];
    var items: seq<ObjectItem> :| ListsObjects(items, kept) && f.objects == Saved(cv, items);
    if n in RestoredObjects(cv, f.objects) {
      RestoredIsKept(cv, items, kept, n);
    }
  }

  lemma RestoredIsKept(cv: Conversions, items: seq<ObjectItem>, kept: map<string, ObjectView>, n: string)
    requires ListsObjects(items, kept) && n in RestoredObjects(cv, Saved(cv, items))
    ensures n in kept && cv.kindCorrect(kept[n].typeExpr)
    ensures RestoredObjects(cv, Saved(cv, items))[n].value.Some?
  {
    RestoredFromFile(cv, Saved(cv, items), n);
    var i :| 0 <= i < |items| && Saved(cv, items)[i].name == n && cv.kindCorrect(Saved(cv, items)[i].typeExpr);
    assert items[i].name == n;
  }

  class SecondoSystem {
    const catalog: SecondoCatalog
    const cv: Conversions
    // what the storage manager restores when the transaction is aborted
    var savedTypes: map<string, string>
    var savedObjects: map<string, ObjectRecord>
    var savedValues: map<RecordId, Value>
    var savedNext: RecordId

    constructor (cv: Conversions)
      ensures this.cv == cv && fresh(catalog) && Now() == EMPTYSYSTEM
    {
      this.cv := cv;
      catalog := new SecondoCatalog();
      savedTypes, savedObjects, savedValues, savedNext := map[], map[], map[], 1;
    }

    ghost function Now(): System
      reads this, catalog
    {
      System(catalog.Current(), Files(savedTypes, savedObjects, savedValues, savedNext))
    }

    /** Nothing is pending, and an abort would change nothing. */
    ghost predicate AllCommitted()
      reads this, catalog
    {
      catalog.types == map[] && catalog.objects == map[] && Now().saved == catalog.CurrentFiles()
    }

    method BeginTransaction()
      modifies this
      ensures Now() == old(Now()).(saved := catalog.CurrentFiles())
    {
      savedTypes, savedObjects := catalog.typeCatalogFile, catalog.objCatalogFile;
      savedValues, savedNext := catalog.objValueFile, catalog.nextRecord;
    }

    method CommitTransaction()
      requires Inv(catalog.Current())
      modifies this, catalog
      ensures exists ts, os, done :: Enabled(old(Now()), OpCommit(ts, os, done)) && Now() == Step(old(Now()), OpCommit(ts, os, done))
      ensures AllCommitted() && Inv(catalog.Current())
      ensures Visible(catalog.Current()) == old(Visible(catalog.Current()))
      ensures VisibleTypes(catalog.Current()) == old(VisibleTypes(catalog.Current()))
    {
      ghost var before := Now();
      var ok, ts, os, done := catalog.CleanUp(false);
      BeginTransaction();
      assert Now() == Step(before, OpCommit(ts, os, done));
    }

    method AbortTransaction()
      requires Inv(catalog.Current())
      modifies this, catalog
      ensures Now() == Step(old(Now()), OpAbort)
    {
      var ok, _, _, _ := catalog.CleanUp(true);
      catalog.typeCatalogFile, catalog.objCatalogFile := savedTypes, savedObjects;
      catalog.objValueFile, catalog.nextRecord := savedValues, savedNext;
    }

    /** Writes the catalog to a file; derived objects are left out. */
    method SaveDatabase(isDerived: string -> bool) returns (f: DatabaseFile)
      requires Inv(catalog.Current())
      ensures FileOf(cv, f, VisibleTypes(catalog.Current()), AsSaved(cv, catalog.Current()), isDerived)
      ensures catalog.objects == map[] ==>
                FileOf(cv, f, VisibleTypes(catalog.Current()), Visible(catalog.Current()), isDerived)
    {
      var types := catalog.ListTypes();
      var saved := ListObjectsFull(isDerived);
      f := DatabaseFile(types, saved);
      assert catalog.objects == map[] ==> AsSaved(cv, catalog.Current()) == Visible(catalog.Current());
    }

    /** The objects that are not derived, with their values written by Out. */
    method ListObjectsFull(isDerived: string -> bool) returns (saved: seq<SavedObject>)
      requires Inv(catalog.Current())
      ensures SavesObjects(cv, saved, AsSaved(cv, catalog.Current()), isDerived)
    {
      ghost var items, shown;
      saved, items, shown := SaveStored(isDerived);
      saved := AddPending(isDerived, saved, items, shown);
    }

    method SaveStored(isDerived: string -> bool)
      returns (saved: seq<SavedObject>, ghost items: seq<ObjectItem>, ghost shown: map<string, ObjectView>)
      requires Inv(catalog.Current())
      ensures ListsObjects(items, shown) && saved == Saved(cv, items)
      ensures var m := AsSaved(cv, catalog.Current()); Shows(shown, m, m.Keys - catalog.objects.Keys, isDerived)
    {
      items, saved, shown := [], [], map[];
      ghost var m := AsSaved(cv, catalog.Current());
      var keys := catalog.objCatalogFile.Keys;
      while keys != {}
        invariant keys <= catalog.objCatalogFile.Keys
        invariant ListsObjects(items, shown) && saved == Saved(cv, items)
        invariant Shows(shown, m, catalog.objCatalogFile.Keys - catalog.objects.Keys - keys, isDerived)
      {
        var n :| n in keys;
        keys := keys - {n};
        var pending := n in catalog.objects &&
          (catalog.objects[n].state == EntryDelete || catalog.objects[n].state == EntryUpdate);
        if !pending && !isDerived(n) {
          var view := catalog.GetObjectExpr(n);
          var item := ObjectItem(n, view.value);
          ObjectsSnoc(items, shown, n, view.value);
          SavedSnoc(cv, items, item);
          items := items + [item];
          shown := shown[n := view.value];
          saved := saved + [SaveObject(cv, item)];
        }
      }
    }

    method AddPending(isDerived: string -> bool, stored: seq<SavedObject>, ghost storedItems: seq<ObjectItem>,
                      ghost storedMap: map<string, ObjectView>)
      returns (saved: seq<SavedObject>)
      requires Inv(catalog.Current()) && ListsObjects(storedItems, storedMap) && stored == Saved(cv, storedItems)
      requires var m := AsSaved(cv, catalog.Current()); Shows(storedMap, m, m.Keys - catalog.objects.Keys, isDerived)
      ensures SavesObjects(cv, saved, AsSaved(cv, catalog.Current()), isDerived)
    {
      saved := stored;
      ghost var items, shown, m := storedItems, storedMap, AsSaved(cv, catalog.Current());
      var rest := catalog.objects.Keys;
      while rest != {}
        invariant rest <= catalog.objects.Keys
        invariant ListsObjects(items, shown) && saved == Saved(cv, items)
        invariant Shows(shown, m, m.Keys - rest, isDerived)
      {
        var n :| n in rest;
        var shows, item := PendingItem(n);
        ShowsMore(shown, m, rest, isDerived, n);
        rest := rest - {n};
        if shows && !isDerived(n) {
          ObjectsSnoc(items, shown, n, item.view);
          SavedSnoc(cv, items, item);
          items := items + [item];
          shown := shown[n := item.view];
          saved := saved + [SaveObject(cv, item)];
        }
      }
      ShowsAll(shown, m, rest, isDerived);
    }

    /** A pending object as it is saved, unless it is pending for deletion. */
    method PendingItem(n: string) returns (shows: bool, item: ObjectItem)
      requires Inv(catalog.Current()) && n in catalog.objects
      ensures shows == (n in AsSaved(cv, catalog.Current()))
      ensures shows ==> item == ObjectItem(n, AsSaved(cv, catalog.Current())[n])
    {
      var e := catalog.objects[n];
      shows := e.state == EntryInsert || e.state == EntryUpdate;
      item := ObjectItem(n, ObjectView(e.typeName, cv.wrapped(e.typeExpr), if e.valueDefined then Some(e.value) else None));
    }

    /** Enters the types one by one; false if one is refused. */
    method RestoreTypes(items: seq<TypeItem>) returns (correct: bool)
      requires Inv(catalog.Current()) && VisibleTypes(catalog.Current()) == map[]
      modifies this, catalog
      ensures Inv(catalog.Current()) && VisibleTypes(catalog.Current()) == RestoredTypes(cv, items)
      ensures Visible(catalog.Current()) == old(Visible(catalog.Current()))
      ensures correct <==> TypesAccepted(cv, items)
      ensures items != [] ==> AllCommitted()
    {
      correct := true;
      ghost var os := Visible(catalog.Current());
      for k := 0 to |items|
        invariant Inv(catalog.Current()) && Visible(catalog.Current()) == os
        invariant VisibleTypes(catalog.Current()) == RestoredTypes(cv, items[..k])
        invariant correct <==> TypesAccepted(cv, items[..k])
        invariant k > 0 ==> AllCommitted()
      {
        assert items[..k + 1][..k] == items[..k];
        BeginTransaction();
        if cv.kindCorrect(items[k].typeExpr) {
          InsertTypeRefines(catalog.Current(), items[k].name, items[k].typeExpr);
          var ok := catalog.InsertType(items[k].name, items[k].typeExpr);
          if !ok {
            correct := false;
          }
        } else {
          correct := false;
        }
        CommitTransaction();
      }
      assert items[..|items|] == items;
    }

    /** Enters the objects one by one; a doubly defined object is skipped without complaint. */
    method RestoreObjects(items: seq<SavedObject>) returns (correct: bool)
      requires Inv(catalog.Current()) && Visible(catalog.Current()) == map[]
      modifies this, catalog
      ensures Inv(catalog.Current()) && Visible(catalog.Current()) == RestoredObjects(cv, items)
      ensures VisibleTypes(catalog.Current()) == old(VisibleTypes(catalog.Current()))
      ensures correct <==> ObjectsAccepted(cv, items)
      ensures items != [] || old(AllCommitted()) ==> AllCommitted()
    {
      correct := true;
      ghost var ts := VisibleTypes(catalog.Current());
      for k := 0 to |items|
        invariant Inv(catalog.Current()) && VisibleTypes(catalog.Current()) == ts
        invariant Visible(catalog.Current()) == RestoredObjects(cv, items[..k])
        invariant correct <==> ObjectsAccepted(cv, items[..k])
        invariant k > 0 || old(AllCommitted()) ==> AllCommitted()
      {
        RestoredSnoc(cv, items, k);
        AcceptedSnoc(cv, items, k);
        var accepted := RestoreObject(items[k]);
        correct := correct && accepted;
      }
      assert items[..|items|] == items;
    }

    /** One entry, one transaction. */
    method RestoreObject(i: SavedObject) returns (accepted: bool)
      requires Inv(catalog.Current())
      modifies this, catalog
      ensures Inv(catalog.Current()) && AllCommitted()
      ensures VisibleTypes(catalog.Current()) == old(VisibleTypes(catalog.Current()))
      ensures accepted <==> cv.kindCorrect(i.typeExpr) && cv.inObject(i.typeExpr, i.valueList).Some?
      ensures Visible(catalog.Current()) ==
                if accepted && i.name !in old(Visible(catalog.Current()))
                then old(Visible(catalog.Current()))[i.name := ObjectView(i.typeName, i.typeExpr, cv.inObject(i.typeExpr, i.valueList))]
                else old(Visible(catalog.Current()))
    {
      accepted := false;
      BeginTransaction();
      if cv.kindCorrect(i.typeExpr) {
        var value := cv.inObject(i.typeExpr, i.valueList);
        if value.Some? {
          accepted := true;
          InsertObjectRefines(catalog.Current(), i.name, i.typeName, i.typeExpr, value.value, true);
          var ok := catalog.InsertObject(i.name, i.typeName, i.typeExpr, value.value, true);
        }
      }
      CommitTransaction();
    }

    /** Starts from an empty database and restores types, then objects. */
    method RestoreDatabase(f: DatabaseFile) returns (correct: bool)
      modifies this, catalog
      ensures Inv(catalog.Current())
      ensures VisibleTypes(catalog.Current()) == RestoredTypes(cv, f.types)
      ensures correct <==> TypesAccepted(cv, f.types) && ObjectsAccepted(cv, f.objects)
      ensures Visible(catalog.Current()) == if TypesAccepted(cv, f.types) then RestoredObjects(cv, f.objects) else map[]
      ensures f.types != [] || f.objects != [] ==> AllCommitted()
      ensures forall ts: map<string, string>, os: map<string, ObjectView>, isDerived |
                FileOf(cv, f, ts, os, isDerived) && Complete(cv, ts, os, isDerived) ::
                correct && VisibleTypes(catalog.Current()) == ts && Visible(catalog.Current()) == os
    {
      catalog.types, catalog.objects := map[], map[];
      catalog.typeCatalogFile, catalog.objCatalogFile, catalog.objValueFile, catalog.nextRecord := map[], map[], map[], 1;
      assert Visible(catalog.Current()) == map[] && VisibleTypes(catalog.Current()) == map[];
      correct := RestoreTypes(f.types);
      if correct {
        correct := RestoreObjects(f.objects);
      }
      forall ts: map<string, string>, os: map<string, ObjectView>, isDerived |
        FileOf(cv, f, ts, os, isDerived) && Complete(cv, ts, os, isDerived)
        ensures TypesAccepted(cv, f.types) && ObjectsAccepted(cv, f.objects)
        ensures RestoredTypes(cv, f.types) == ts && RestoredObjects(cv, f.objects) == os
      {
        SaveRestoreExact(cv, f, ts, os, isDerived);
      }
    }
  }
}
