/** The note queries of the store. */
module NotesDb {
  import opened Wrappers
  import opened Text
  import opened Ordering
  import opened Schema
  import TagsDb

  /** getChildPages selects only these columns. */
  datatype ChildPage = ChildPage(id: Id, title: string, createdAt: Timestamp, updatedAt: Timestamp)

  /** getNoteById's object: the row plus its tags and child pages. */
  datatype Note = Note(row: NoteRow, tags: seq<TagRow>, childPages: seq<ChildPage>)

  datatype Crumb = Crumb(id: Id, title: string)

  // ---------------------------------------------------------------- orders

  /** ORDER BY is_pinned DESC, sort_order ASC, updated_at DESC */
  predicate ListOrder(a: NoteRow, b: NoteRow)
  {
    a.isPinned > b.isPinned ||
    (a.isPinned == b.isPinned && (a.sortOrder < b.sortOrder || (a.sortOrder == b.sortOrder && a.updatedAt >= b.updatedAt)))
  }

  /** ORDER BY is_pinned DESC, updated_at DESC */
  predicate SearchOrder(a: NoteRow, b: NoteRow)
  {
    a.isPinned > b.isPinned || (a.isPinned == b.isPinned && a.updatedAt >= b.updatedAt)
  }

  /** ORDER BY sort_order ASC, created_at ASC */
  predicate ChildOrder(a: NoteRow, b: NoteRow)
  {
    a.sortOrder < b.sortOrder || (a.sortOrder == b.sortOrder && a.createdAt <= b.createdAt)
  }

  lemma OrdersTotal()
    ensures TotalPreorder(ListOrder) && TotalPreorder(SearchOrder) && TotalPreorder(ChildOrder)
  {
  }

  lemma RowsInjective(t: Tables)
    requires Valid(t)
    ensures forall k1, k2 :: k1 in t.notes && k2 in t.notes && k1 != k2 ==> t.notes[k1] != t.notes[k2]
  {
    forall k1, k2 | k1 in t.notes && k2 in t.notes && k1 != k2 ensures t.notes[k1] != t.notes[k2] {
      assert NoteOk(t, k1) && NoteOk(t, k2);
    }
  }

  // ---------------------------------------------------------------- listings

  /** The WHERE of getAllNotes: top-level notes, of one folder when a
      folder id is given (an empty id counts as none, as `if (folderId)` does). */
  predicate Listed(folderId: Option<Id>, r: NoteRow)
  {
    r.parentId.None? && (folderId.None? || folderId.value == "" || r.folderId == folderId)
  }

  method GetAllNotes(db: Database, folderId: Option<Id>) returns (r: seq<NoteRow>)
    requires Valid(db.tables)
    ensures SortedBy(r, ListOrder) && Distinct(r)
    ensures forall i :: 0 <= i < |r| ==> r[i] in db.tables.notes.Values && Listed(folderId, r[i])
    ensures forall k :: k in db.tables.notes && Listed(folderId, db.tables.notes[k]) ==> db.tables.notes[k] in r
  {
    OrdersTotal();
    RowsInjective(db.tables);
    r := SortedSelect(db.tables.notes, (n: NoteRow) => Listed(folderId, n), ListOrder);
  }

  /** `LIKE '%q%'` read as a case-insensitive substring test. */
  predicate Like(s: string, q: string)
  {
    Contains(Lower(s), Lower(q))
  }

  predicate Matches(r: NoteRow, query: string)
  {
    Like(r.title, query) || Like(r.content, query)
  }

  /** Every note, child pages too, whose title or content holds the query. */
  method SearchNotes(db: Database, query: string) returns (r: seq<NoteRow>)
    requires Valid(db.tables)
    ensures SortedBy(r, SearchOrder) && Distinct(r)
    ensures forall i :: 0 <= i < |r| ==> r[i] in db.tables.notes.Values && Matches(r[i], query)
    ensures forall k :: k in db.tables.notes && Matches(db.tables.notes[k], query) ==> db.tables.notes[k] in r
  {
    OrdersTotal();
    RowsInjective(db.tables);
    r := SortedSelect(db.tables.notes, (n: NoteRow) => Matches(n, query), SearchOrder);
  }

  function Summary(r: NoteRow): ChildPage
  {
    ChildPage(r.id, r.title, r.createdAt, r.updatedAt)
  }

  /** The child pages of a note, each once, in ChildOrder of their rows. */
  predicate ChildPagesOf(t: Tables, noteId: Id, pages: seq<ChildPage>)
  {
    (forall i :: 0 <= i < |pages| ==>
       (pages[i].id in t.notes && pages[i] == Summary(t.notes[pages[i].id]) &&
        t.notes[pages[i].id].parentId == Some(noteId))) &&
    (forall k :: k in t.notes && t.notes[k].parentId == Some(noteId) ==> Summary(t.notes[k]) in pages) &&
    (forall i, j :: 0 <= i < j < |pages| ==>
       pages[i].id in t.notes && pages[j].id in t.notes && pages[i].id != pages[j].id &&
       ChildOrder(t.notes[pages[i].id], t.notes[pages[j].id]))
  }

  method GetChildPages(db: Database, noteId: Id) returns (pages: seq<ChildPage>)
    requires Valid(db.tables)
    ensures ChildPagesOf(db.tables, noteId, pages)
  {
    var t := db.tables;
    OrdersTotal();
    RowsInjective(t);
    var rows := SortedSelect(t.notes, (n: NoteRow) => n.parentId == Some(noteId), ChildOrder);
    pages := seq(|rows|, i requires 0 <= i < |rows| => Summary(rows[i]));
    assert forall i :: 0 <= i < |rows| ==> rows[i].id in t.notes && t.notes[rows[i].id] == rows[i] by {
      forall i | 0 <= i < |rows| ensures rows[i].id in t.notes && t.notes[rows[i].id] == rows[i] {
        assert rows[i] in t.notes.Values;
        var k :| k in t.notes && t.notes[k] == rows[i];
        assert NoteOk(t, k);
      }
    }
    forall k | k in t.notes && t.notes[k].parentId == Some(noteId) ensures Summary(t.notes[k]) in pages {
      var i :| 0 <= i < |rows| && rows[i] == t.notes[k];
      assert pages[i] == Summary(t.notes[k]);
    }
    forall i, j | 0 <= i < j < |pages|
      ensures pages[i].id in t.notes && pages[j].id in t.notes && pages[i].id != pages[j].id &&
              ChildOrder(t.notes[pages[i].id], t.notes[pages[j].id])
    {
      assert rows[i] != rows[j] && ChildOrder(rows[i], rows[j]);
    }
  }

  /** SELECT * ... WHERE id = ?, then the note's tags and child pages. */
  method GetNoteById(db: Database, id: Id) returns (r: Option<Note>)
    requires Valid(db.tables)
    ensures r.None? <==> id !in db.tables.notes
    ensures r.Some? ==>
      (r.value.row == db.tables.notes[id] &&
       TagsDb.TagsOf(db.tables, id, r.value.tags) && ChildPagesOf(db.tables, id, r.value.childPages))
  {
    if id !in db.tables.notes {
      return None;
    }
    var row := db.tables.notes[id];
    var tags := TagsDb.TagsForNote(db, id);
    var pages := GetChildPages(db, id);
    r := Some(Note(row, tags, pages));
  }

  /** A note nothing links to or hangs under has no tags and no child pages. */
  lemma FreshNoteIsBare(t: Tables, id: Id, tags: seq<TagRow>, pages: seq<ChildPage>)
    requires forall p :: p in t.noteTags ==> p.0 != id
    requires forall k :: k in t.notes ==> t.notes[k].parentId != Some(id)
    requires TagsDb.TagsOf(t, id, tags) && ChildPagesOf(t, id, pages)
    ensures tags == [] && pages == []
  {
    assert forall g :: g in tags ==> (id, g.id) in t.noteTags;
    assert forall c :: c in pages ==> c.id in t.notes && t.notes[c.id].parentId == Some(id);
    NoMemberIsEmpty(tags);
    NoMemberIsEmpty(pages);
  }

  /** A note nothing links to has no tags. */
  lemma FreshNoteUntagged(t: Tables, id: Id, tags: seq<TagRow>)
    requires forall p :: p in t.noteTags ==> p.0 != id
    requires TagsDb.TagsOf(t, id, tags)
    ensures tags == []
  {
    assert forall g :: g in tags ==> (id, g.id) in t.noteTags;
    NoMemberIsEmpty(tags);
  }

  // ---------------------------------------------------------------- create

  /** The row createNote inserts: the destructuring defaults, then the column defaults. */
  function NewNoteRow(id: Id, title: Option<string>, content: Option<string>,
                      folderId: Option<Id>, parentId: Option<Id>, now: Timestamp): NoteRow
  {
    NoteRow(id, title.GetOr(DefaultTitle), content.GetOr(DefaultContent), folderId, parentId, 0, 0, now, now)
  }

  /** INSERT INTO notes under the primary key and the two foreign keys. The
      foreign keys are checked at the end of the statement, against the table
      that already holds the new row, so a note may name itself as parent. */
  function InsertNote(t: Tables, row: NoteRow): Result<Tables>
  {
    var notes := t.notes[row.id := row];
    if row.id in t.notes then Err(PrimaryKeyTaken)
    else if !RefOk(row.folderId, t.folders) || !RefOk(row.parentId, notes) then Err(ForeignKeyMissing)
    else Ok(t.(notes := notes))
  }

  lemma InsertNoteFacts(t: Tables, row: NoteRow)
    requires Valid(t) && IsId(row.id)
    ensures InsertNote(t, row).Ok? <==>
      row.id !in t.notes && RefOk(row.folderId, t.folders) &&
      (RefOk(row.parentId, t.notes) || row.parentId == Some(row.id))
    ensures InsertNote(t, row).Ok? ==> Valid(InsertNote(t, row).value)
    ensures InsertNote(t, row).Ok? && Acyclic(t.notes) && row.parentId != Some(row.id) ==>
      Acyclic(InsertNote(t, row).value.notes)
    ensures InsertNote(t, row).Ok? && row.parentId == Some(row.id) ==> !Acyclic(InsertNote(t, row).value.notes)
  {
    if InsertNote(t, row).Ok? {
      var u := InsertNote(t, row).value;
      assert forall k :: k in u.notes ==> NoteOk(u, k) by {
        forall k | k in u.notes ensures NoteOk(u, k) {
          if k != row.id { assert NoteOk(t, k); }
        }
      }
      if row.parentId == Some(row.id) {
        SelfParentCycle(u.notes, row.id);
      } else if Acyclic(t.notes) {
        var rank :| Ranked(t.notes, rank);
        var r: nat := if row.parentId.Some? && row.parentId.value in t.notes then rank[row.parentId.value] + 1 else 0;
        var rank' := rank[row.id := r];
        forall k | k in u.notes ensures k in rank' && RankDrops(u.notes, rank', k) {
          if k != row.id {
            assert NoteOk(t, k) && RankDrops(t.notes, rank, k);
          }
        }
        assert Ranked(u.notes, rank');
      }
    }
  }

  /** A note that is its own parent is a cycle: no ranking exists. */
  lemma SelfParentCycle(notes: map<Id, NoteRow>, id: Id)
    requires id in notes && notes[id].parentId == Some(id)
    ensures !Acyclic(notes)
  {
  }

  /** The new note is returned as getNoteById reads it back: no tags, and no
      child pages unless it is its own parent. */
  method CreateNote(db: Database, bytes: seq<byte>, now: Timestamp, title: Option<string>,
                    content: Option<string>, folderId: Option<Id>, parentId: Option<Id>) returns (r: Result<Note>)
    requires Valid(db.tables) && |bytes| == IdBytes
    modifies db
    ensures Valid(db.tables)
    ensures var row := NewNoteRow(GenerateId(bytes), title, content, folderId, parentId, now);
      match InsertNote(old(db.tables), row)
      case Err(e) => r == Err(e) && db.tables == old(db.tables)
      case Ok(u) =>
        db.tables == u && r.Ok? && r.value.row == row && r.value.tags == [] &&
        ChildPagesOf(u, row.id, r.value.childPages) &&
        (row.parentId != Some(row.id) ==> r.value.childPages == [])
  {
    var row := NewNoteRow(GenerateId(bytes), title, content, folderId, parentId, now);
    var t := db.tables;
    InsertNoteFacts(t, row);
    match InsertNote(t, row)
    case Err(e) =>
      r := Err(e);
    case Ok(u) =>
      db.tables := u;
      var n := GetNoteById(db, row.id);
      assert forall p :: p in u.noteTags ==> p.0 != row.id;
      if row.parentId != Some(row.id) {
        assert forall k :: k in u.notes ==> u.notes[k].parentId != Some(row.id) by {
          forall k | k in u.notes ensures u.notes[k].parentId != Some(row.id) {
            if k != row.id { assert NoteOk(t, k); }
          }
        }
        FreshNoteIsBare(u, row.id, n.value.tags, n.value.childPages);
      } else {
        FreshNoteUntagged(u, row.id, n.value.tags);
      }
      r := Ok(n.value);
  }

  // ---------------------------------------------------------------- update

  /** The columns updateNote accepts; None stands for an undefined field and
      Some(None) for an explicit null. */
  datatype NoteFields = NoteFields(title: Option<string>, content: Option<string>,
                                   folderId: Option<Option<Id>>, parentId: Option<Option<Id>>,
                                   isPinned: Option<int>, sortOrder: Option<int>)

  datatype NoteColumn = TitleColumn | ContentColumn | FolderColumn | ParentColumn | PinnedColumn | SortColumn

  /** The whitelist, in its order. */
  const NoteColumns: seq<NoteColumn> := [TitleColumn, ContentColumn, FolderColumn, ParentColumn, PinnedColumn, SortColumn]

  predicate Given(f: NoteFields, c: NoteColumn)
  {
    match c
    case TitleColumn => f.title.Some?
    case ContentColumn => f.content.Some?
    case FolderColumn => f.folderId.Some?
    case ParentColumn => f.parentId.Some?
    case PinnedColumn => f.isPinned.Some?
    case SortColumn => f.sortOrder.Some?
  }

  function Patch(row: NoteRow, f: NoteFields, now: Timestamp): NoteRow
  {
    row.(title := f.title.GetOr(row.title), content := f.content.GetOr(row.content),
         folderId := f.folderId.GetOr(row.folderId), parentId := f.parentId.GetOr(row.parentId),
         isPinned := f.isPinned.GetOr(row.isPinned), sortOrder := f.sortOrder.GetOr(row.sortOrder),
         updatedAt := now)
  }

  /** The UPDATE statement: no row matches an unknown id, so nothing is checked. */
  function Patched(t: Tables, id: Id, f: NoteFields, now: Timestamp): Result<Tables>
  {
    if id !in t.notes then Ok(t)
    else
      var row := Patch(t.notes[id], f, now);
      if !RefOk(row.folderId, t.folders) || !RefOk(row.parentId, t.notes) then Err(ForeignKeyMissing)
      else Ok(t.(notes := t.notes[id := row]))
  }

  lemma PatchedFacts(t: Tables, id: Id, f: NoteFields, now: Timestamp)
    requires Valid(t)
    ensures Patched(t, id, f, now).Ok? ==>
      (Valid(Patched(t, id, f, now).value) && Patched(t, id, f, now).value.notes.Keys == t.notes.Keys &&
       forall k :: k in t.notes && k != id ==> Patched(t, id, f, now).value.notes[k] == t.notes[k])
    ensures Patched(t, id, f, now).Ok? && f.parentId.None? && Acyclic(t.notes) ==>
      Acyclic(Patched(t, id, f, now).value.notes)
  {
    if id in t.notes && Patched(t, id, f, now).Ok? {
      var u := Patched(t, id, f, now).value;
      forall k | k in u.notes ensures NoteOk(u, k) {
        assert NoteOk(t, k);
      }
      if f.parentId.None? && Acyclic(t.notes) {
        var rank :| Ranked(t.notes, rank);
        forall k | k in u.notes ensures k in rank && RankDrops(u.notes, rank, k) {
          assert RankDrops(t.notes, rank, k);
        }
        assert Ranked(u.notes, rank);
      }
    }
  }

  /** Builds the SET list from the whitelist; with nothing to set only reads the note. */
  method UpdateNote(db: Database, id: Id, f: NoteFields, now: Timestamp) returns (r: Result<Option<Note>>)
    requires Valid(db.tables)
    modifies db
    ensures Valid(db.tables)
    ensures (forall c :: c in NoteColumns ==> !Given(f, c)) ==>
      db.tables == old(db.tables) && r.Ok? && (r.value.Some? <==> id in old(db.tables).notes) &&
      (r.value.Some? ==> r.value.value.row == old(db.tables).notes[id])
    ensures r.Ok? && r.value.Some? ==>
      TagsDb.TagsOf(db.tables, id, r.value.value.tags) && ChildPagesOf(db.tables, id, r.value.value.childPages)
    ensures (exists c :: c in NoteColumns && Given(f, c)) ==>
      match Patched(old(db.tables), id, f, now)
      case Err(e) => r == Err(e) && db.tables == old(db.tables)
      case Ok(u) =>
        (db.tables == u && r.Ok? && (r.value.Some? <==> id in old(db.tables).notes) &&
         (r.value.Some? ==> r.value.value.row == Patch(old(db.tables).notes[id], f, now)))
  {
    var sets: seq<NoteColumn> := [];
    for i := 0 to |NoteColumns|
      invariant forall c :: c in sets <==> c in NoteColumns[..i] && Given(f, c)
    {
      if Given(f, NoteColumns[i]) {
        sets := sets + [NoteColumns[i]];
      }
      assert NoteColumns[..i + 1] == NoteColumns[..i] + [NoteColumns[i]];
    }
    assert NoteColumns[..|NoteColumns|] == NoteColumns;
    if |sets| == 0 {
      var n := GetNoteById(db, id);
      return Ok(n);
    }
    assert sets[0] in NoteColumns && Given(f, sets[0]);
    var t := db.tables;
    PatchedFacts(t, id, f, now);
    match Patched(t, id, f, now)
    case Err(e) =>
      r := Err(e);
    case Ok(u) =>
      db.tables := u;
      var n := GetNoteById(db, id);
      r := Ok(n);
  }

  // ---------------------------------------------------------------- pin

  /** CASE WHEN is_pinned = 1 THEN 0 ELSE 1 END */
  function Flip(p: int): int
  {
    if p == 1 then 0 else 1
  }

  lemma FlipFacts(p: int)
    ensures Flip(p) == 0 || Flip(p) == 1
    ensures (p == 0 || p == 1) ==> Flip(Flip(p)) == p && Flip(p) != p
  {
  }

  function PinToggled(t: Tables, id: Id, now: Timestamp): Tables
  {
    if id in t.notes then
      t.(notes := t.notes[id := t.notes[id].(isPinned := Flip(t.notes[id].isPinned), updatedAt := now)])
    else t
  }

  /** Toggling twice restores a 0/1 flag and changes nothing else but the time. */
  lemma PinToggledTwice(t: Tables, id: Id, now1: Timestamp, now2: Timestamp)
    requires Valid(t) && id in t.notes && (t.notes[id].isPinned == 0 || t.notes[id].isPinned == 1)
    ensures Valid(PinToggled(t, id, now1))
    ensures PinToggled(PinToggled(t, id, now1), id, now2).notes == t.notes[id := t.notes[id].(updatedAt := now2)]
  {
    var u := PinToggled(t, id, now1);
    forall k | k in u.notes ensures NoteOk(u, k) {
      assert NoteOk(t, k);
    }
  }

  method TogglePin(db: Database, id: Id, now: Timestamp) returns (r: Option<Note>)
    requires Valid(db.tables)
    modifies db
    ensures db.tables == PinToggled(old(db.tables), id, now) && Valid(db.tables)
    ensures Acyclic(old(db.tables).notes) ==> Acyclic(db.tables.notes)
    ensures r.Some? <==> id in db.tables.notes
    ensures r.Some? ==>
      r.value.row == db.tables.notes[id] &&
      TagsDb.TagsOf(db.tables, id, r.value.tags) && ChildPagesOf(db.tables, id, r.value.childPages)
  {
    var t := db.tables;
    db.tables := PinToggled(t, id, now);
    forall k | k in db.tables.notes ensures NoteOk(db.tables, k) {
      assert NoteOk(t, k);
    }
    PinToggledAcyclic(t, id, now);
    r := GetNoteById(db, id);
  }

  /** The flag is not a parent link: toggling keeps the links acyclic. */
  lemma PinToggledAcyclic(t: Tables, id: Id, now: Timestamp)
    ensures Acyclic(t.notes) ==> Acyclic(PinToggled(t, id, now).notes)
  {
    if Acyclic(t.notes) {
      var u := PinToggled(t, id, now);
      var rank :| Ranked(t.notes, rank);
      forall k | k in u.notes ensures k in rank && RankDrops(u.notes, rank, k) {
        assert RankDrops(t.notes, rank, k);
      }
      assert Ranked(u.notes, rank);
    }
  }

  // ---------------------------------------------------------------- reorder

  function SetSortOrder(r: NoteRow, i: int): NoteRow
  {
    r.(sortOrder := i)
  }

  /** Positions change sort_order only: keys, foreign keys and parent links stay. */
  lemma ReorderedFacts(t: Tables, ids: seq<Id>)
    requires Valid(t)
    ensures Valid(t.(notes := Reordered(t.notes, ids, SetSortOrder)))
    ensures Acyclic(t.notes) ==> Acyclic(Reordered(t.notes, ids, SetSortOrder))
    ensures Distinct(ids) ==>
      forall i :: 0 <= i < |ids| && ids[i] in t.notes ==> Reordered(t.notes, ids, SetSortOrder)[ids[i]].sortOrder == i
  {
    var u := t.(notes := Reordered(t.notes, ids, SetSortOrder));
    forall k | k in u.notes ensures NoteOk(u, k) {
      assert NoteOk(t, k);
    }
    if Acyclic(t.notes) {
      var rank :| Ranked(t.notes, rank);
      forall k | k in u.notes ensures k in rank && RankDrops(u.notes, rank, k) {
        assert RankDrops(t.notes, rank, k);
      }
      assert Ranked(u.notes, rank);
    }
    if Distinct(ids) {
      ReorderedPositions(t.notes, ids, SetSortOrder);
    }
  }

  method ReorderNotes(db: Database, ids: seq<Id>)
    requires Valid(db.tables)
    modifies db
    ensures db.tables == old(db.tables).(notes := Reordered(old(db.tables).notes, ids, SetSortOrder))
    ensures Valid(db.tables)
  {
    ghost var t := db.tables;
    assert Reordered(t.notes, ids[..0], SetSortOrder) == t.notes;
    for i := 0 to |ids|
      invariant db.tables == t.(notes := Reordered(t.notes, ids[..i], SetSortOrder))
    {
      ReorderedStep(t.notes, ids, SetSortOrder, i);
      if ids[i] in db.tables.notes {
        db.tables := db.tables.(notes := db.tables.notes[ids[i] := db.tables.notes[ids[i]].(sortOrder := i)]);
      }
    }
    assert ids[..|ids|] == ids;
    ReorderedFacts(t, ids);
  }

  // ---------------------------------------------------------------- delete

  /** ON DELETE SET NULL on parent_id. */
  function Orphaned(r: NoteRow, id: Id): NoteRow
  {
    if r.parentId == Some(id) then r.(parentId := None) else r
  }

  /** DELETE FROM notes: child pages move to the top level, links cascade. */
  function NoteDeleted(t: Tables, id: Id): Tables
  {
    t.(notes := map k | k in t.notes && k != id :: Orphaned(t.notes[k], id),
       noteTags := set p | p in t.noteTags && p.0 != id)
  }

  lemma NoteDeletedFacts(t: Tables, id: Id)
    requires Valid(t)
    ensures Valid(NoteDeleted(t, id))
    ensures NoteDeleted(t, id).notes.Keys == t.notes.Keys - {id}
    ensures forall k :: k in NoteDeleted(t, id).notes ==> NoteDeleted(t, id).notes[k].parentId != Some(id)
    ensures forall p :: p in NoteDeleted(t, id).noteTags ==> p.0 != id
    ensures Acyclic(t.notes) ==> Acyclic(NoteDeleted(t, id).notes)
  {
    var u := NoteDeleted(t, id);
    forall k | k in u.notes ensures NoteOk(u, k) {
      assert NoteOk(t, k);
    }
    if Acyclic(t.notes) {
      var rank :| Ranked(t.notes, rank);
      forall k | k in u.notes ensures k in rank && RankDrops(u.notes, rank, k) {
        assert RankDrops(t.notes, rank, k);
      }
      assert Ranked(u.notes, rank);
    }
  }

  method DeleteNote(db: Database, id: Id)
    requires Valid(db.tables)
    modifies db
    ensures db.tables == NoteDeleted(old(db.tables), id) && Valid(db.tables)
  {
    NoteDeletedFacts(db.tables, id);
    db.tables := NoteDeleted(db.tables, id);
  }

  // ---------------------------------------------------------------- breadcrumbs

  /** A stored note whose parent link ends the walk. */
  predicate IsRoot(notes: map<Id, NoteRow>, k: Id)
    requires k in notes
  {
    notes[k].parentId.None? || notes[k].parentId.value !in notes
  }

  /** crumbs is the path from a root down to the note, by parent links. */
  predicate Trail(notes: map<Id, NoteRow>, noteId: Id, crumbs: seq<Crumb>)
  {
    (crumbs == [] <==> noteId !in notes) &&
    (forall i :: 0 <= i < |crumbs| ==> crumbs[i].id in notes && crumbs[i].title == notes[crumbs[i].id].title) &&
    (forall i :: 0 < i < |crumbs| ==> crumbs[i].id in notes && notes[crumbs[i].id].parentId == Some(crumbs[i - 1].id)) &&
    (crumbs != [] ==> crumbs[|crumbs| - 1].id == noteId && crumbs[0].id in notes && IsRoot(notes, crumbs[0].id))
  }

  /** The walk has one outcome: breadcrumbs are determined by the parent links. */
  lemma {:induction false} TrailUnique(notes: map<Id, NoteRow>, noteId: Id, a: seq<Crumb>, b: seq<Crumb>)
    requires Trail(notes, noteId, a) && Trail(notes, noteId, b)
    ensures a == b
    decreases |a|
  {
    if a != [] {
      var la, lb := |a| - 1, |b| - 1;
      assert a[la] == b[lb];
      if la != 0 && lb != 0 {
        var p := a[la - 1].id;
        assert notes[noteId].parentId == Some(p) == Some(b[lb - 1].id);
        assert Trail(notes, p, a[..la]);
        assert Trail(notes, p, b[..lb]);
        TrailUnique(notes, p, a[..la], b[..lb]);
        assert a == a[..la] + [a[la]] && b == b[..lb] + [b[lb]];
      }
    }
  }

  /** A child page of a top-level note: its breadcrumbs are the parent, then itself. */
  lemma ChildTrail(notes: map<Id, NoteRow>, parent: Id, child: Id, crumbs: seq<Crumb>)
    requires parent in notes && child in notes
    requires notes[parent].parentId.None? && notes[child].parentId == Some(parent)
    requires Trail(notes, child, crumbs)
    ensures crumbs == [Crumb(parent, notes[parent].title), Crumb(child, notes[child].title)]
  {
    var expected := [Crumb(parent, notes[parent].title), Crumb(child, notes[child].title)];
    assert Trail(notes, child, expected);
    TrailUnique(notes, child, crumbs, expected);
  }

  /** Walks parent links upward, prepending; parent links must not loop,
      since the walk has no bound of its own. */
  method GetBreadcrumbs(db: Database, noteId: Id) returns (crumbs: seq<Crumb>)
    requires Valid(db.tables) && Acyclic(db.tables.notes)
    ensures Trail(db.tables.notes, noteId, crumbs)
  {
    var notes := db.tables.notes;
    ghost var rank :| Ranked(notes, rank);
    assert !IsId("");
    crumbs := [];
    var cur: Option<Id> := Some(noteId);
    while cur.Some? && cur.value != ""
      invariant crumbs == [] ==> cur == Some(noteId) || (cur.None? && noteId !in notes)
      invariant crumbs != [] ==> crumbs[|crumbs| - 1].id == noteId
      invariant forall i :: 0 <= i < |crumbs| ==> crumbs[i].id in notes && crumbs[i].title == notes[crumbs[i].id].title
      invariant forall i :: 0 < i < |crumbs| ==> notes[crumbs[i].id].parentId == Some(crumbs[i - 1].id)
      invariant crumbs != [] && cur.Some? ==> notes[crumbs[0].id].parentId == cur
      invariant crumbs != [] && cur.None? ==> IsRoot(notes, crumbs[0].id)
      decreases if cur.None? then 0 else if cur.value in notes then rank[cur.value] + 2 else 1
    {
      var k := cur.value;
      if k in notes {
        var row := notes[k];
        assert NoteOk(db.tables, k) && RankDrops(notes, rank, k);
        crumbs := [Crumb(row.id, row.title)] + crumbs;
        cur := row.parentId;
      } else {
        cur := None;
      }
    }
    if cur.Some? {
      assert !IsId(cur.value);
    }
  }
}
