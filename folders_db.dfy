/** The folder queries of the store. */
module FoldersDb {
  import opened Wrappers
  import opened Ordering
  import opened Schema

  /** ORDER BY sort_order ASC, name ASC */
  predicate FolderOrder(a: FolderRow, b: FolderRow)
  {
    a.sortOrder < b.sortOrder || (a.sortOrder == b.sortOrder && StrLe(a.name, b.name))
  }

  lemma FolderOrderTotal()
    ensures TotalPreorder(FolderOrder)
  {
    forall a, b ensures FolderOrder(a, b) || FolderOrder(b, a) {
      StrLeTotal(a.name, b.name);
    }
    forall a, b, c | FolderOrder(a, b) && FolderOrder(b, c) ensures FolderOrder(a, c) {
      if a.sortOrder == b.sortOrder == c.sortOrder {
        StrLeTrans(a.name, b.name, c.name);
      }
    }
  }

  method GetAllFolders(db: Database) returns (r: seq<FolderRow>)
    requires Valid(db.tables)
    ensures SortedBy(r, FolderOrder) && Distinct(r)
    ensures forall i :: 0 <= i < |r| ==> r[i] in db.tables.folders.Values
    ensures forall k :: k in db.tables.folders ==> db.tables.folders[k] in r
  {
    FolderOrderTotal();
    forall k1, k2 | k1 in db.tables.folders && k2 in db.tables.folders && k1 != k2
      ensures db.tables.folders[k1] != db.tables.folders[k2]
    {
      assert FolderOk(db.tables, k1) && FolderOk(db.tables, k2);
    }
    r := SortedSelect(db.tables.folders, _ => true, FolderOrder);
  }

  method GetFolderById(db: Database, id: Id) returns (r: Option<FolderRow>)
    ensures r.None? <==> id !in db.tables.folders
    ensures r.Some? ==> id in db.tables.folders && r.value == db.tables.folders[id]
  {
    r := if id in db.tables.folders then Some(db.tables.folders[id]) else None;
  }

  // ---------------------------------------------------------------- create

  /** The inserted row: sort_order and the timestamps take their defaults. */
  function NewFolderRow(id: Id, name: string, parentId: Option<Id>, now: Timestamp): FolderRow
  {
    FolderRow(id, name, parentId, 0, now, now)
  }

  /** INSERT INTO folders; the foreign key is checked at the end of the
      statement, so a folder may name itself as parent. */
  function InsertFolder(t: Tables, row: FolderRow): Result<Tables>
  {
    var folders := t.folders[row.id := row];
    if row.id in t.folders then Err(PrimaryKeyTaken)
    else if !RefOk(row.parentId, folders) then Err(ForeignKeyMissing)
    else Ok(t.(folders := folders))
  }

  lemma InsertFolderFacts(t: Tables, row: FolderRow)
    requires Valid(t) && IsId(row.id)
    ensures InsertFolder(t, row).Ok? <==>
      row.id !in t.folders && (RefOk(row.parentId, t.folders) || row.parentId == Some(row.id))
    ensures InsertFolder(t, row).Ok? ==>
      Valid(InsertFolder(t, row).value) && InsertFolder(t, row).value.notes == t.notes
  {
    if InsertFolder(t, row).Ok? {
      var u := InsertFolder(t, row).value;
      forall k | k in u.folders ensures FolderOk(u, k) {
        if k != row.id { assert FolderOk(t, k); }
      }
      forall k | k in u.notes ensures NoteOk(u, k) {
        assert NoteOk(t, k);
      }
    }
  }

  method CreateFolder(db: Database, bytes: seq<byte>, now: Timestamp, name: string, parentId: Option<Id>)
      returns (r: Result<FolderRow>)
    requires Valid(db.tables) && |bytes| == IdBytes
    modifies db
    ensures Valid(db.tables)
    ensures var row := NewFolderRow(GenerateId(bytes), name, parentId, now);
      match InsertFolder(old(db.tables), row)
      case Err(e) => r == Err(e) && db.tables == old(db.tables)
      case Ok(u) => r == Ok(row) && db.tables == u
  {
    var row := NewFolderRow(GenerateId(bytes), name, parentId, now);
    InsertFolderFacts(db.tables, row);
    match InsertFolder(db.tables, row)
    case Err(e) =>
      r := Err(e);
    case Ok(u) =>
      db.tables := u;
      var f := GetFolderById(db, row.id);
      r := Ok(f.value);
  }

  // ---------------------------------------------------------------- update

  /** The columns updateFolder accepts; None stands for an undefined field. */
  datatype FolderFields = FolderFields(name: Option<string>, parentId: Option<Option<Id>>, sortOrder: Option<int>)

  datatype FolderColumn = NameColumn | ParentColumn | SortColumn

  const FolderColumns: seq<FolderColumn> := [NameColumn, ParentColumn, SortColumn]

  predicate Given(f: FolderFields, c: FolderColumn)
  {
    match c
    case NameColumn => f.name.Some?
    case ParentColumn => f.parentId.Some?
    case SortColumn => f.sortOrder.Some?
  }

  function Patch(row: FolderRow, f: FolderFields, now: Timestamp): FolderRow
  {
    row.(name := f.name.GetOr(row.name), parentId := f.parentId.GetOr(row.parentId),
         sortOrder := f.sortOrder.GetOr(row.sortOrder), updatedAt := now)
  }

  function Patched(t: Tables, id: Id, f: FolderFields, now: Timestamp): Result<Tables>
  {
    if id !in t.folders then Ok(t)
    else
      var row := Patch(t.folders[id], f, now);
      if !RefOk(row.parentId, t.folders) then Err(ForeignKeyMissing)
      else Ok(t.(folders := t.folders[id := row]))
  }

  lemma PatchedFacts(t: Tables, id: Id, f: FolderFields, now: Timestamp)
    requires Valid(t)
    ensures Patched(t, id, f, now).Ok? ==>
      (Valid(Patched(t, id, f, now).value) && Patched(t, id, f, now).value.notes == t.notes &&
       Patched(t, id, f, now).value.folders.Keys == t.folders.Keys &&
       forall k :: k in t.folders && k != id ==> Patched(t, id, f, now).value.folders[k] == t.folders[k])
  {
    if id in t.folders && Patched(t, id, f, now).Ok? {
      var u := Patched(t, id, f, now).value;
      forall k | k in u.folders ensures FolderOk(u, k) {
        assert FolderOk(t, k);
      }
      forall k | k in u.notes ensures NoteOk(u, k) {
        assert NoteOk(t, k);
      }
    }
  }

  method UpdateFolder(db: Database, id: Id, f: FolderFields, now: Timestamp) returns (r: Result<Option<FolderRow>>)
    requires Valid(db.tables)
    modifies db
    ensures Valid(db.tables)
    ensures (forall c :: c in FolderColumns ==> !Given(f, c)) ==>
      db.tables == old(db.tables) && r.Ok? && (r.value.Some? <==> id in old(db.tables).folders) &&
      (r.value.Some? ==> r.value.value == old(db.tables).folders[id])
    ensures (exists c :: c in FolderColumns && Given(f, c)) ==>
      match Patched(old(db.tables), id, f, now)
      case Err(e) => r == Err(e) && db.tables == old(db.tables)
      case Ok(u) =>
        (db.tables == u && r.Ok? && (r.value.Some? <==> id in old(db.tables).folders) &&
         (r.value.Some? ==> r.value.value == Patch(old(db.tables).folders[id], f, now)))
  {
    var sets: seq<FolderColumn> := [];
    for i := 0 to |FolderColumns|
      invariant forall c :: c in sets <==> c in FolderColumns[..i] && Given(f, c)
    {
      if Given(f, FolderColumns[i]) {
        sets := sets + [FolderColumns[i]];
      }
      assert FolderColumns[..i + 1] == FolderColumns[..i] + [FolderColumns[i]];
    }
    assert FolderColumns[..|FolderColumns|] == FolderColumns;
    if |sets| == 0 {
      var g := GetFolderById(db, id);
      return Ok(g);
    }
    assert sets[0] in FolderColumns && Given(f, sets[0]);
    PatchedFacts(db.tables, id, f, now);
    match Patched(db.tables, id, f, now)
    case Err(e) =>
      r := Err(e);
    case Ok(u) =>
      db.tables := u;
      var g := GetFolderById(db, id);
      r := Ok(g);
  }

  // ---------------------------------------------------------------- delete

  /** ON DELETE SET NULL on both references to a folder. */
  function FolderDeleted(t: Tables, id: Id): Tables
  {
    t.(folders := map k | k in t.folders && k != id ::
         if t.folders[k].parentId == Some(id) then t.folders[k].(parentId := None) else t.folders[k],
       notes := map k | k in t.notes ::
         if t.notes[k].folderId == Some(id) then t.notes[k].(folderId := None) else t.notes[k])
  }

  /** Deleting a folder never deletes a note: its notes move to no folder. */
  lemma FolderDeletedFacts(t: Tables, id: Id)
    requires Valid(t)
    ensures Valid(FolderDeleted(t, id))
    ensures FolderDeleted(t, id).notes.Keys == t.notes.Keys
    ensures FolderDeleted(t, id).folders.Keys == t.folders.Keys - {id}
    ensures forall k :: k in t.notes ==>
      FolderDeleted(t, id).notes[k].folderId == (if t.notes[k].folderId == Some(id) then None else t.notes[k].folderId)
    ensures forall k :: k in t.notes ==> FolderDeleted(t, id).notes[k].parentId == t.notes[k].parentId
    ensures Acyclic(t.notes) ==> Acyclic(FolderDeleted(t, id).notes)
  {
    FolderDeletedValid(t, id);
    if Acyclic(t.notes) {
      FolderDeletedAcyclic(t, id);
    }
  }

  lemma FolderDeletedValid(t: Tables, id: Id)
    requires Valid(t)
    ensures Valid(FolderDeleted(t, id))
  {
    var u := FolderDeleted(t, id);
    forall k | k in u.folders ensures FolderOk(u, k) {
      assert FolderOk(t, k);
    }
    forall k | k in u.notes ensures NoteOk(u, k) {
      assert NoteOk(t, k);
    }
  }

  /** Parent links of notes are untouched, so any rank that worked still works. */
  lemma FolderDeletedAcyclic(t: Tables, id: Id)
    requires Acyclic(t.notes)
    ensures Acyclic(FolderDeleted(t, id).notes)
  {
    var u := FolderDeleted(t, id).notes;
    var rank :| Ranked(t.notes, rank);
    forall k | k in u ensures k in rank && RankDrops(u, rank, k) {
      assert RankDrops(t.notes, rank, k);
    }
    assert Ranked(u, rank);
  }

  method DeleteFolder(db: Database, id: Id)
    requires Valid(db.tables)
    modifies db
    ensures db.tables == FolderDeleted(old(db.tables), id) && Valid(db.tables)
  {
    FolderDeletedFacts(db.tables, id);
    db.tables := FolderDeleted(db.tables, id);
  }

  // ---------------------------------------------------------------- reorder

  function SetSortOrder(r: FolderRow, i: int): FolderRow
  {
    r.(sortOrder := i)
  }

  lemma ReorderedFacts(t: Tables, ids: seq<Id>)
    requires Valid(t)
    ensures Valid(t.(folders := Reordered(t.folders, ids, SetSortOrder)))
    ensures Distinct(ids) ==>
      forall i :: 0 <= i < |ids| && ids[i] in t.folders ==> Reordered(t.folders, ids, SetSortOrder)[ids[i]].sortOrder == i
  {
    var u := t.(folders := Reordered(t.folders, ids, SetSortOrder));
    forall k | k in u.folders ensures FolderOk(u, k) {
      assert FolderOk(t, k);
    }
    forall k | k in u.notes ensures NoteOk(u, k) {
      assert NoteOk(t, k);
    }
    if Distinct(ids) {
      ReorderedPositions(t.folders, ids, SetSortOrder);
    }
  }

  method ReorderFolders(db: Database, ids: seq<Id>)
    requires Valid(db.tables)
    modifies db
    ensures db.tables == old(db.tables).(folders := Reordered(old(db.tables).folders, ids, SetSortOrder))
    ensures Valid(db.tables)
  {
    ghost var t := db.tables;
    assert Reordered(t.folders, ids[..0], SetSortOrder) == t.folders;
    for i := 0 to |ids|
      invariant db.tables == t.(folders := Reordered(t.folders, ids[..i], SetSortOrder))
    {
      ReorderedStep(t.folders, ids, SetSortOrder, i);
      if ids[i] in db.tables.folders {
        db.tables := db.tables.(folders := db.tables.folders[ids[i] := db.tables.folders[ids[i]].(sortOrder := i)]);
      }
    }
    assert ids[..|ids|] == ids;
    ReorderedFacts(t, ids);
  }
}
