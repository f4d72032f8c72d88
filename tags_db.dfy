/** The tag queries of the store. */
module TagsDb {
  import opened Wrappers
  import opened Ordering
  import opened Schema

  /** A tag row as the listing returns it, with its number of links. */
  datatype TagCount = TagCount(row: TagRow, noteCount: nat)

  /** createTag's answer: the stored row for a known name, or the new row with note_count 0. */
  datatype NewTag = NewTag(row: TagRow, noteCount: Option<nat>)

  /** COUNT(nt.note_id) of the LEFT JOIN: one per note_tags row of the tag. */
  function NoteCount(links: set<(Id, Id)>, tagId: Id): nat
  {
    |set p | p in links && p.1 == tagId|
  }

  ghost predicate HasName(t: Tables, name: string)
  {
    exists k :: k in t.tags && t.tags[k].name == name
  }

  predicate NameOrder(a: TagCount, b: TagCount)
  {
    StrLe(a.row.name, b.row.name)
  }

  lemma NameOrderTotal()
    ensures TotalPreorder(NameOrder)
  {
    forall a, b ensures NameOrder(a, b) || NameOrder(b, a) {
      StrLeTotal(a.row.name, b.row.name);
    }
    forall a, b, c | NameOrder(a, b) && NameOrder(b, c) ensures NameOrder(a, c) {
      StrLeTrans(a.row.name, b.row.name, c.row.name);
    }
  }

  /** A join without ORDER BY: any order. */
  predicate AnyOrder(a: TagRow, b: TagRow)
  {
    true
  }

  /** Every tag once, by name, with the number of notes carrying it. */
  method GetAllTags(db: Database) returns (r: seq<TagCount>)
    requires Valid(db.tables)
    ensures SortedBy(r, NameOrder) && Distinct(r)
    ensures forall i :: 0 <= i < |r| ==>
      r[i].row in db.tables.tags.Values && r[i].noteCount == NoteCount(db.tables.noteTags, r[i].row.id)
    ensures forall k :: k in db.tables.tags ==>
      TagCount(db.tables.tags[k], NoteCount(db.tables.noteTags, k)) in r
  {
    var t := db.tables;
    var counted := map k | k in t.tags :: TagCount(t.tags[k], NoteCount(t.noteTags, k));
    NameOrderTotal();
    r := SortedSelect(counted, _ => true, NameOrder);
    forall i | 0 <= i < |r| ensures r[i].row in t.tags.Values && r[i].noteCount == NoteCount(t.noteTags, r[i].row.id) {
      assert r[i] in counted.Values;
      var k :| k in counted && counted[k] == r[i];
    }
    assert forall k :: k in t.tags ==> counted[k] in r;
  }

  /** r holds the tags linked to the note, each once, in any order. */
  predicate TagsOf(t: Tables, noteId: Id, r: seq<TagRow>)
  {
    Distinct(r) &&
    (forall i :: 0 <= i < |r| ==> r[i] in t.tags.Values && (noteId, r[i].id) in t.noteTags) &&
    (forall k :: k in t.tags && (noteId, k) in t.noteTags ==> t.tags[k] in r)
  }

  /** The join of note_tags with tags for one note. */
  method TagsForNote(db: Database, noteId: Id) returns (r: seq<TagRow>)
    requires Valid(db.tables)
    ensures TagsOf(db.tables, noteId, r)
  {
    var links := db.tables.noteTags;
    assert TotalPreorder(AnyOrder);
    r := SortedSelect(db.tables.tags, (g: TagRow) => (noteId, g.id) in links, AnyOrder);
  }

  /** INSERT INTO tags: refused when the id is taken. */
  function InsertTag(t: Tables, row: TagRow): Result<Tables>
  {
    if row.id in t.tags then Err(PrimaryKeyTaken) else Ok(t.(tags := t.tags[row.id := row]))
  }

  lemma InsertTagValid(t: Tables, row: TagRow)
    requires Valid(t) && IsId(row.id) && !HasName(t, row.name)
    ensures InsertTag(t, row).Ok? <==> row.id !in t.tags
    ensures InsertTag(t, row).Ok? ==>
      (Valid(InsertTag(t, row).value) && InsertTag(t, row).value.tags[row.id] == row &&
       HasName(InsertTag(t, row).value, row.name))
  {
    if row.id !in t.tags {
      var u := InsertTag(t, row).value;
      assert u.tags[row.id].name == row.name;
    }
  }

  /** The stored tag for a known name and nothing changes; otherwise a new
      row with the default colour. */
  method CreateTag(db: Database, bytes: seq<byte>, name: string, color: Option<string>) returns (r: Result<NewTag>)
    requires Valid(db.tables) && |bytes| == IdBytes
    modifies db
    ensures Valid(db.tables)
    ensures HasName(old(db.tables), name) ==>
      db.tables == old(db.tables) && r.Ok? && r.value.noteCount.None?
      && r.value.row.name == name && r.value.row in db.tables.tags.Values
    ensures !HasName(old(db.tables), name) ==>
      var row := TagRow(GenerateId(bytes), name, color.GetOr(DefaultTagColor));
      match InsertTag(old(db.tables), row)
      case Err(e) => r == Err(e) && db.tables == old(db.tables)
      case Ok(u) => r == Ok(NewTag(row, Some(0))) && db.tables == u
    ensures r.Ok? ==> HasName(db.tables, name)
  {
    var t := db.tables;
    if k :| k in t.tags && t.tags[k].name == name {
      r := Ok(NewTag(t.tags[k], None));
      return;
    }
    var row := TagRow(GenerateId(bytes), name, color.GetOr(DefaultTagColor));
    InsertTagValid(t, row);
    match InsertTag(t, row)
    case Err(e) =>
      r := Err(e);
    case Ok(u) =>
      db.tables := u;
      r := Ok(NewTag(row, Some(0)));
  }

  /** A second createTag of the same name returns the first one's row. */
  method CreateTagTwice(db: Database, bytes1: seq<byte>, bytes2: seq<byte>, name: string, color: Option<string>)
      returns (r1: Result<NewTag>, r2: Result<NewTag>)
    requires Valid(db.tables) && |bytes1| == IdBytes && |bytes2| == IdBytes
    modifies db
    ensures r1.Ok? ==> r2.Ok? && r2.value.row == r1.value.row && r2.value.noteCount.None?
  {
    r1 := CreateTag(db, bytes1, name, color);
    ghost var t := db.tables;
    r2 := CreateTag(db, bytes2, name, color);
    if r1.Ok? {
      assert r1.value.row.name == name && r1.value.row in t.tags.Values;
      assert r2.value.row.name == name && r2.value.row in t.tags.Values;
      ghost var k1 :| k1 in t.tags && t.tags[k1] == r1.value.row;
      ghost var k2 :| k2 in t.tags && t.tags[k2] == r2.value.row;
      assert k1 == k2;
    }
  }

  /** DELETE FROM tags; ON DELETE CASCADE drops its links. */
  function TagDeleted(t: Tables, id: Id): Tables
  {
    t.(tags := t.tags - {id}, noteTags := set p | p in t.noteTags && p.1 != id)
  }

  lemma TagDeletedValid(t: Tables, id: Id)
    requires Valid(t)
    ensures Valid(TagDeleted(t, id))
    ensures id !in TagDeleted(t, id).tags && NoteCount(TagDeleted(t, id).noteTags, id) == 0
    ensures forall p :: p in TagDeleted(t, id).noteTags <==> p in t.noteTags && p.1 != id
  {
    var u := TagDeleted(t, id);
    assert (set p | p in u.noteTags && p.1 == id) == {};
  }

  method DeleteTag(db: Database, id: Id)
    requires Valid(db.tables)
    modifies db
    ensures db.tables == TagDeleted(old(db.tables), id) && Valid(db.tables)
  {
    TagDeletedValid(db.tables, id);
    db.tables := TagDeleted(db.tables, id);
  }

  /** INSERT OR IGNORE; a foreign-key failure is caught and ignored too. */
  function Linked(t: Tables, noteId: Id, tagId: Id): Tables
  {
    if noteId in t.notes && tagId in t.tags then t.(noteTags := t.noteTags + {(noteId, tagId)}) else t
  }

  lemma LinkedFacts(t: Tables, noteId: Id, tagId: Id)
    requires Valid(t)
    ensures Valid(Linked(t, noteId, tagId))
    ensures Linked(Linked(t, noteId, tagId), noteId, tagId) == Linked(t, noteId, tagId)
    ensures (noteId, tagId) in Linked(t, noteId, tagId).noteTags <==> noteId in t.notes && tagId in t.tags
    ensures Linked(t, noteId, tagId).noteTags - {(noteId, tagId)} == t.noteTags - {(noteId, tagId)}
  {
  }

  method AddTagToNote(db: Database, noteId: Id, tagId: Id)
    requires Valid(db.tables)
    modifies db
    ensures db.tables == Linked(old(db.tables), noteId, tagId) && Valid(db.tables)
  {
    if noteId in db.tables.notes && tagId in db.tables.tags {
      db.tables := db.tables.(noteTags := db.tables.noteTags + {(noteId, tagId)});
    }
  }

  function Unlinked(t: Tables, noteId: Id, tagId: Id): Tables
  {
    t.(noteTags := t.noteTags - {(noteId, tagId)})
  }

  /** Removing a fresh link undoes adding it. */
  lemma UnlinkUndoesLink(t: Tables, noteId: Id, tagId: Id)
    requires Valid(t) && (noteId, tagId) !in t.noteTags
    ensures Unlinked(Linked(t, noteId, tagId), noteId, tagId) == t
    ensures Valid(Unlinked(t, noteId, tagId))
  {
  }

  method RemoveTagFromNote(db: Database, noteId: Id, tagId: Id)
    requires Valid(db.tables)
    modifies db
    ensures db.tables == Unlinked(old(db.tables), noteId, tagId) && Valid(db.tables)
  {
    db.tables := Unlinked(db.tables, noteId, tagId);
  }
}
