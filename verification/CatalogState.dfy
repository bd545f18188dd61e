/**
 The catalog: maps of pending entries over persistent files. Every operation is given here as
 a function on the whole state, branch by branch as the program decides; the state it shows to
 a reader is the map `Visible`.
 */
module CatalogState {

  datatype Option<+T> = None | Some(value: T)

  // What a value record holds once an object has been saved into it.
  type Value = int

  // Value records are numbered from 1; 0 means no record.
  type RecordId = nat

  datatype EntryState = EntryInsert | EntryUpdate | EntryDelete

  datatype TypeEntry = TypeEntry(state: EntryState, typeExpr: string)

  datatype ObjectEntry = ObjectEntry(
    state: EntryState,
    typeName: string,
    typeExpr: string,
    value: Value,
    valueDefined: bool,
    recordId: RecordId)

  /** A record of the object catalog file; the value itself lies in a value record. */
  datatype ObjectRecord = ObjectRecord(
    typeName: string,
    typeExpr: string,
    valueDefined: bool,
    recordId: RecordId)

  /** The files of the storage manager. Appending a value record hands out `nextRecord`. */
  datatype Files = Files(
    types: map<string, string>,
    objects: map<string, ObjectRecord>,
    values: map<RecordId, Value>,
    nextRecord: RecordId)

  datatype Db = Db(
    types: map<string, TypeEntry>,
    objects: map<string, ObjectEntry>,
    files: Files)

  const EMPTYFILES := Files(map[], map[], map[], 1)

  // -------------------------------------------------------------- what is visible

  datatype ObjectView = ObjectView(typeName: string, typeExpr: string, value: Option<Value>)

  function ViewOfEntry(e: ObjectEntry): ObjectView {
    ObjectView(e.typeName, e.typeExpr, if e.valueDefined then Some(e.value) else None)
  }

  function StoredValue(fs: Files, r: ObjectRecord): Value {
    if r.recordId in fs.values then fs.values[r.recordId] else 0
  }

  function ViewOfRecord(fs: Files, r: ObjectRecord): ObjectView {
    ObjectView(r.typeName, r.typeExpr, if r.valueDefined then Some(StoredValue(fs, r)) else None)
  }

  predicate IsObjectName(db: Db, n: string) {
    if n in db.objects then !db.objects[n].state.EntryDelete? else n in db.files.objects
  }

  function ObjectNamed(db: Db, n: string): ObjectView
    requires IsObjectName(db, n)
  {
    if n in db.objects then ViewOfEntry(db.objects[n]) else ViewOfRecord(db.files, db.files.objects[n])
  }

  predicate MemberType(db: Db, n: string) {
    if n in db.types then !db.types[n].state.EntryDelete? else n in db.files.types
  }

  function TypeNamed(db: Db, n: string): string
    requires MemberType(db, n)
  {
    if n in db.types then db.types[n].typeExpr else db.files.types[n]
  }

  /** The objects a reader finds, with their type and value. */
  function Visible(db: Db): map<string, ObjectView> {
    map n | n in db.objects.Keys + db.files.objects.Keys && IsObjectName(db, n) :: ObjectNamed(db, n)
  }

  function VisibleTypes(db: Db): map<string, string> {
    map n | n in db.types.Keys + db.files.types.Keys && MemberType(db, n) :: TypeNamed(db, n)
  }

  // ------------------------------------------------------------------- invariants

  /** A pending insert is not in the file; a pending update or delete is. */
  predicate OverlayOk(db: Db) {
    && (forall n | n in db.types :: db.types[n].state.EntryInsert? <==> n !in db.files.types)
    && (forall n | n in db.objects :: db.objects[n].state.EntryInsert? <==> n !in db.files.objects)
  }

  /** Defined objects have a value record, and no two objects name the same record. */
  predicate RecordsOk(fs: Files) {
    && 0 < fs.nextRecord && (forall id | id in fs.values :: 0 < id < fs.nextRecord)
    && (forall n | n in fs.objects ::
          var r := fs.objects[n];
          (r.recordId != 0 ==> r.recordId in fs.values) && (r.valueDefined ==> r.recordId != 0))
    && (forall m, n | m in fs.objects && n in fs.objects && m != n && fs.objects[m].recordId != 0 ::
          fs.objects[m].recordId != fs.objects[n].recordId)
  }

  /** A pending entry names its own value record or none. */
  predicate PendingRecordsOk(db: Db) {
    forall n | n in db.objects && db.objects[n].recordId != 0 ::
      n in db.files.objects && db.objects[n].recordId == db.files.objects[n].recordId
  }

  predicate Inv(db: Db) { OverlayOk(db) && RecordsOk(db.files) && PendingRecordsOk(db) }

  // ------------------------------------------------------------------------ types

  function InsertType(db: Db, n: string, e: string): (Db, bool) {
    if n in db.types then
      if db.types[n].state.EntryDelete?
      then (db.(types := db.types[n := TypeEntry(EntryUpdate, e)]), true)
      else (db, false)
    else if n !in db.files.types then (db.(types := db.types[n := TypeEntry(EntryInsert, e)]), true)
    else (db, false)
  }

  predicate TypeUsedByObject(db: Db, n: string) {
    || (exists k :: k in db.objects && !db.objects[k].state.EntryDelete? && db.objects[k].typeName == n)
    || (n != "" && exists k :: k in db.files.objects && db.files.objects[k].typeName == n)
  }

  /** Result 0: deleted; 1: some object uses the type; 2: no such type. */
  function DeleteType(db: Db, n: string): (Db, int) {
    if n in db.types then
      if db.types[n].state.EntryDelete? then (db, 2)
      else if TypeUsedByObject(db, n) then (db, 1)
      else if db.types[n].state.EntryUpdate?
      then (db.(types := db.types[n := db.types[n].(state := EntryDelete)]), 0)
      else (db.(types := db.types - {n}), 0)
    else if n in db.files.types then
      if TypeUsedByObject(db, n) then (db, 1)
      else (db.(types := db.types[n := TypeEntry(EntryDelete, db.files.types[n])]), 0)
    else (db, 2)
  }

  // ---------------------------------------------------------------------- objects

  function InsertObject(db: Db, n: string, typeName: string, typeExpr: string, value: Value, valueDefined: bool): (Db, bool) {
    if n in db.objects then
      if db.objects[n].state.EntryDelete?
      then (db.(objects := db.objects[n := ObjectEntry(EntryUpdate, typeName, typeExpr, value, valueDefined, 0)]), true)
      else (db, false)
    else if n !in db.files.objects
    then (db.(objects := db.objects[n := ObjectEntry(EntryInsert, typeName, typeExpr, value, valueDefined, 0)]), true)
    else (db, false)
  }

  function DeleteObject(db: Db, n: string): (Db, bool) {
    if n in db.objects then
      if db.objects[n].state.EntryDelete? then (db, false)
      else if db.objects[n].state.EntryInsert? then (db.(objects := db.objects - {n}), true)
      else (db.(objects := db.objects[n := db.objects[n].(state := EntryDelete)]), true)
    else if n in db.files.objects then
      var r := db.files.objects[n];
      // the entry is made from what GetObjectExpr returns, which is not the record id
      (db.(objects := db.objects[n := ObjectEntry(EntryDelete, r.typeName, r.typeExpr,
         if r.valueDefined then StoredValue(db.files, r) else 0, r.valueDefined, 0)]), true)
    else (db, false)
  }

  /** Unlike DeleteObject, takes an object that is not pending out of the files at once. */
  function KillObject(db: Db, n: string): (Db, bool) {
    if n in db.objects then
      if db.objects[n].state.EntryDelete? then (db, false)
      else if db.objects[n].state.EntryInsert? then (db.(objects := db.objects - {n}), true)
      else (db.(objects := db.objects[n := db.objects[n].(state := EntryDelete)]), true)
    else if n in db.files.objects then
      var id := db.files.objects[n].recordId;
      (db.(files := db.files.(objects := db.files.objects - {n}, values := if id != 0 then db.files.values - {id} else db.files.values)),
       id != 0 ==> id in db.files.values)
    else (db, false)
  }

  /** The pending update made of a stored object that gets a new value. */
  function UpdateEntry(r: ObjectRecord, value: Value): ObjectEntry {
    ObjectEntry(EntryUpdate, r.typeName, r.typeExpr, value, true, r.recordId)
  }

  function UpdateObject(db: Db, n: string, value: Value): (Db, bool) {
    if n in db.objects then
      if db.objects[n].state.EntryDelete? then (db, false)
      else (db.(objects := db.objects[n := db.objects[n].(value := value, valueDefined := true)]), true)
    else if n in db.files.objects
    then (db.(objects := db.objects[n := UpdateEntry(db.files.objects[n], value)]), true)
    else (db, false)
  }

  /** ModifyObject asserts that the object is not pending for deletion. */
  function ModifyObject(db: Db, n: string, value: Value): (Db, bool)
    requires n in db.objects ==> !db.objects[n].state.EntryDelete?
  {
    if n in db.objects
    then (db.(objects := db.objects[n := db.objects[n].(value := value, valueDefined := true)]), true)
    else if n in db.files.objects
    then (db.(objects := db.objects[n := UpdateEntry(db.files.objects[n], value)]), true)
    else (db, false)
  }

  datatype RenameResult = Renamed | NameUsed | UnknownObject | CatalogError

  function RenameObject(db: Db, old_: string, new_: string): (Db, RenameResult) {
    if IsObjectName(db, new_) then (db, NameUsed)
    else if !IsObjectName(db, old_) then (db, UnknownObject)
    else if old_ in db.objects then
      (db.(objects := (db.objects - {old_})[new_ := db.objects[old_]]), Renamed)
    else
      var r := db.files.objects[old_];
      var rest := db.files.objects - {old_};
      if new_ in rest then (db.(files := db.files.(objects := rest)), CatalogError)
      else (db.(files := db.files.(objects := rest[new_ := r])), Renamed)
  }
}
