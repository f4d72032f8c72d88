/** The /api/notes router: its route table, matched first-registered-first,
    and the handlers with their status codes. */
module NotesRoutes {
  import opened Wrappers
  import opened Schema
  import opened Ordering
  import opened NotesDb
  import TagsDb

  // ---------------------------------------------------------------- dispatch

  datatype Verb = Get | Post | Put | Patch | Delete

  /** A path segment of a route pattern: literal text, or `:id`. */
  datatype Segment = Lit(text: string) | Param

  datatype Handler = ListNotes | CreateNoteHandler | ReorderHandler | BreadcrumbsHandler
                   | PinHandler | ReadNote | WriteNote | RemoveNote

  datatype Route = Route(verb: Verb, pattern: seq<Segment>, handler: Handler)

  /** The registration order of the router. */
  const Routes: seq<Route> := [
    Route(Get, [], ListNotes),
    Route(Post, [], CreateNoteHandler),
    Route(Put, [Lit("reorder")], ReorderHandler),
    Route(Get, [Param, Lit("breadcrumbs")], BreadcrumbsHandler),
    Route(Patch, [Param, Lit("pin")], PinHandler),
    Route(Get, [Param], ReadNote),
    Route(Put, [Param], WriteNote),
    Route(Delete, [Param], RemoveNote)
  ]

  /** The parameters a pattern binds on a path, if it matches; `:id` takes one non-empty segment. */
  function Bind(pattern: seq<Segment>, path: seq<string>): (r: Option<seq<string>>)
    ensures r.Some? ==> |path| == |pattern|
  {
    if pattern == [] then (if path == [] then Some([]) else None)
    else if path == [] then None
    else
      var rest := Bind(pattern[1..], path[1..]);
      match pattern[0]
      case Lit(s) => if path[0] == s then rest else None
      case Param => if path[0] != "" && rest.Some? then Some([path[0]] + rest.value) else None
  }

  predicate Serves(r: Route, verb: Verb, path: seq<string>)
  {
    r.verb == verb && Bind(r.pattern, path).Some?
  }

  datatype Match = Match(index: nat, handler: Handler, params: seq<string>)

  function FirstFrom(rs: seq<Route>, i: nat, verb: Verb, path: seq<string>): (m: Option<Match>)
    requires i <= |rs|
    ensures m.Some? ==>
      (i <= m.value.index < |rs| && Serves(rs[m.value.index], verb, path) &&
       m.value.handler == rs[m.value.index].handler &&
       Some(m.value.params) == Bind(rs[m.value.index].pattern, path) &&
       forall j :: i <= j < m.value.index ==> !Serves(rs[j], verb, path))
    ensures m.None? ==> forall j :: i <= j < |rs| ==> !Serves(rs[j], verb, path)
    decreases |rs| - i
  {
    if i == |rs| then None
    else if Serves(rs[i], verb, path) then Some(Match(i, rs[i].handler, Bind(rs[i].pattern, path).value))
    else FirstFrom(rs, i + 1, verb, path)
  }

  /** The route handling a request: the first registered one that serves it. */
  function Dispatch(verb: Verb, path: seq<string>): (m: Option<Match>)
    ensures m.Some? ==>
      (m.value.index < |Routes| && Serves(Routes[m.value.index], verb, path) &&
       m.value.handler == Routes[m.value.index].handler &&
       Some(m.value.params) == Bind(Routes[m.value.index].pattern, path) &&
       forall j :: 0 <= j < m.value.index ==> !Serves(Routes[j], verb, path))
    ensures m.None? ==> forall j :: 0 <= j < |Routes| ==> !Serves(Routes[j], verb, path)
  {
    FirstFrom(Routes, 0, verb, path)
  }

  /** PUT /reorder would also fit PUT /:id; the earlier registration wins. */
  lemma ReorderBeforeUpdate()
    ensures Serves(Routes[6], Put, ["reorder"])
    ensures Dispatch(Put, ["reorder"]) == Some(Match(2, ReorderHandler, []))
  {
    assert Serves(Routes[2], Put, ["reorder"]);
  }

  /** The sub-routes reach their own handlers, the id bound. */
  lemma SubRoutes(id: string)
    requires id != ""
    ensures Dispatch(Get, [id, "breadcrumbs"]) == Some(Match(3, BreadcrumbsHandler, [id]))
    ensures Dispatch(Patch, [id, "pin"]) == Some(Match(4, PinHandler, [id]))
  {
    BindParamThen(id, "breadcrumbs");
    BindParamThen(id, "pin");
    assert Serves(Routes[3], Get, [id, "breadcrumbs"]);
    assert Serves(Routes[4], Patch, [id, "pin"]);
  }

  lemma BindParamThen(id: string, s: string)
    requires id != ""
    ensures Bind([Param, Lit(s)], [id, s]) == Some([id])
  {
    var p, q := [Param, Lit(s)], [id, s];
    assert p[1..] == [Lit(s)] && q[1..] == [s];
    assert Bind([Lit(s)], [s]) == Some([]);
    assert [id] + [] == [id];
  }

  /** Any other single segment is a note id. */
  lemma IdRoutes(id: string)
    requires id != "" && id != "reorder"
    ensures Dispatch(Get, [id]) == Some(Match(5, ReadNote, [id]))
    ensures Dispatch(Put, [id]) == Some(Match(6, WriteNote, [id]))
    ensures Dispatch(Delete, [id]) == Some(Match(7, RemoveNote, [id]))
  {
    BindParam(id);
    IdGet(id);
    IdPut(id);
    IdDelete(id);
  }

  lemma BindParam(id: string)
    requires id != ""
    ensures Bind([Param], [id]) == Some([id])
  {
    assert [Param][1..] == [] && [id][1..] == [];
    assert [id] + [] == [id];
  }

  lemma IdGet(id: string)
    requires Bind([Param], [id]) == Some([id])
    ensures Dispatch(Get, [id]) == Some(Match(5, ReadNote, [id]))
  {
    assert Serves(Routes[5], Get, [id]);
    assert !Serves(Routes[0], Get, [id]) && !Serves(Routes[3], Get, [id]);
  }

  lemma IdPut(id: string)
    requires id != "reorder" && Bind([Param], [id]) == Some([id])
    ensures Dispatch(Put, [id]) == Some(Match(6, WriteNote, [id]))
  {
    assert Serves(Routes[6], Put, [id]);
    assert !Serves(Routes[2], Put, [id]);
  }

  lemma IdDelete(id: string)
    requires Bind([Param], [id]) == Some([id])
    ensures Dispatch(Delete, [id]) == Some(Match(7, RemoveNote, [id]))
  {
    assert Serves(Routes[7], Delete, [id]);
  }

  // ---------------------------------------------------------------- handlers

  /** The JSON values a request body field can hold, as far as truthiness sees them. */
  datatype JsValue = JsNull | JsBool(b: bool) | JsNumber(n: int) | JsString(s: string) | JsArray | JsObject

  predicate Truthy(v: JsValue)
  {
    match v
    case JsNull => false
    case JsBool(b) => b
    case JsNumber(n) => n != 0
    case JsString(s) => s != ""
    case JsArray => true
    case JsObject => true
  }

  datatype Body = NoteBody(note: Note) | NotesBody(notes: seq<NoteRow>) | CrumbsBody(crumbs: seq<Crumb>)
                | SuccessBody | ErrorBody(message: string) | ServerError

  datatype Response = Response(status: nat, body: Body)

  const NotFound := Response(404, ErrorBody("Note not found"))

  /** A thrown store error reaches the default error handler. */
  const Failure := Response(500, ServerError)

  /** GET /: an empty folder_id counts as none. */
  method List(db: Database, folderQuery: Option<string>) returns (res: Response)
    requires Valid(db.tables)
    ensures res.status == 200 && res.body.NotesBody?
    ensures SortedBy(res.body.notes, ListOrder) && Distinct(res.body.notes)
    ensures var f := if folderQuery.Some? && folderQuery.value != "" then folderQuery else None;
      (forall i :: 0 <= i < |res.body.notes| ==> res.body.notes[i] in db.tables.notes.Values && Listed(f, res.body.notes[i])) &&
      (forall k :: k in db.tables.notes && Listed(f, db.tables.notes[k]) ==> db.tables.notes[k] in res.body.notes)
  {
    var folderId := if folderQuery.Some? && folderQuery.value != "" then folderQuery else None;
    var notes := GetAllNotes(db, folderId);
    res := Response(200, NotesBody(notes));
  }

  /** The destructured POST body; folderId and parentId hold None for undefined, Some(None) for null. */
  datatype CreateBody = CreateBody(title: Option<string>, content: Option<string>,
                                   folderId: Option<Option<Id>>, parentId: Option<Option<Id>>)

  method Create(db: Database, bytes: seq<byte>, now: Timestamp, body: CreateBody) returns (res: Response)
    requires Valid(db.tables) && |bytes| == IdBytes
    modifies db
    ensures Valid(db.tables)
    ensures var row := NewNoteRow(GenerateId(bytes), body.title, body.content,
                                  body.folderId.GetOr(None), body.parentId.GetOr(None), now);
      match InsertNote(old(db.tables), row)
      case Err(_) => res == Failure && db.tables == old(db.tables)
      case Ok(u) =>
        db.tables == u && res.status == 201 && res.body.NoteBody? && res.body.note.row == row &&
        res.body.note.tags == [] && ChildPagesOf(u, row.id, res.body.note.childPages) &&
        (row.parentId != Some(row.id) ==> res.body.note.childPages == [])
  {
    var r := CreateNote(db, bytes, now, body.title, body.content, body.folderId.GetOr(None), body.parentId.GetOr(None));
    match r
    case Err(_) =>
      res := Failure;
    case Ok(note) =>
      res := Response(201, NoteBody(note));
  }

  /** PUT /reorder; noteIds is None when the body field is not an array. */
  method Reorder(db: Database, noteIds: Option<seq<Id>>) returns (res: Response)
    requires Valid(db.tables)
    modifies db
    ensures Valid(db.tables)
    ensures noteIds.None? ==> res == Response(400, ErrorBody("noteIds must be an array")) && db.tables == old(db.tables)
    ensures noteIds.Some? ==>
      (res == Response(200, SuccessBody) &&
       db.tables == old(db.tables).(notes := Reordered(old(db.tables).notes, noteIds.value, SetSortOrder)))
  {
    if noteIds.None? {
      return Response(400, ErrorBody("noteIds must be an array"));
    }
    ReorderNotes(db, noteIds.value);
    res := Response(200, SuccessBody);
  }

  method Breadcrumbs(db: Database, id: Id) returns (res: Response)
    requires Valid(db.tables) && Acyclic(db.tables.notes)
    ensures res.status == 200 && res.body.CrumbsBody? && Trail(db.tables.notes, id, res.body.crumbs)
  {
    var crumbs := GetBreadcrumbs(db, id);
    res := Response(200, CrumbsBody(crumbs));
  }

  method Pin(db: Database, id: Id, now: Timestamp) returns (res: Response)
    requires Valid(db.tables)
    modifies db
    ensures db.tables == PinToggled(old(db.tables), id, now) && Valid(db.tables)
    ensures Acyclic(old(db.tables).notes) ==> Acyclic(db.tables.notes)
    ensures id !in db.tables.notes ==> res == NotFound
    ensures id in db.tables.notes ==>
      res.status == 200 && res.body.NoteBody? && res.body.note.row == db.tables.notes[id] &&
      TagsDb.TagsOf(db.tables, id, res.body.note.tags) && ChildPagesOf(db.tables, id, res.body.note.childPages)
  {
    var note := TogglePin(db, id, now);
    if note.None? {
      return NotFound;
    }
    res := Response(200, NoteBody(note.value));
  }

  method Read(db: Database, id: Id) returns (res: Response)
    requires Valid(db.tables)
    ensures id !in db.tables.notes ==> res == NotFound
    ensures id in db.tables.notes ==>
      res.status == 200 && res.body.NoteBody? && res.body.note.row == db.tables.notes[id] &&
      TagsDb.TagsOf(db.tables, id, res.body.note.tags) && ChildPagesOf(db.tables, id, res.body.note.childPages)
  {
    var note := GetNoteById(db, id);
    if note.None? {
      return NotFound;
    }
    res := Response(200, NoteBody(note.value));
  }

  /** The PUT body fields the handler looks at; None stands for undefined. */
  datatype UpdateBody = UpdateBody(title: Option<string>, content: Option<string>, folderId: Option<Option<Id>>,
                                   isPinned: Option<JsValue>, sortOrder: Option<int>)

  /** The fields object built from the body: camelCase names mapped to
      columns, isPinned coerced to 1 or 0, and parent_id never set. */
  function FieldsOf(b: UpdateBody): (f: NoteFields)
    ensures f.parentId.None?
    ensures f.title == b.title && f.content == b.content && f.folderId == b.folderId && f.sortOrder == b.sortOrder
    ensures f.isPinned.Some? <==> b.isPinned.Some?
    ensures b.isPinned.Some? ==> f.isPinned.value == (if Truthy(b.isPinned.value) then 1 else 0)
  {
    NoteFields(b.title, b.content, b.folderId, None,
               if b.isPinned.Some? then Some(if Truthy(b.isPinned.value) then 1 else 0) else None,
               b.sortOrder)
  }

  /** PUT /:id cannot move a note under another: parent links, and so the
      absence of cycles, are kept. */
  method Write(db: Database, id: Id, body: UpdateBody, now: Timestamp) returns (res: Response)
    requires Valid(db.tables)
    modifies db
    ensures Valid(db.tables)
    ensures db.tables.notes.Keys == old(db.tables).notes.Keys
    ensures forall k :: k in db.tables.notes ==> db.tables.notes[k].parentId == old(db.tables).notes[k].parentId
    ensures Acyclic(old(db.tables).notes) ==> Acyclic(db.tables.notes)
    ensures id !in old(db.tables).notes ==> res == NotFound && db.tables == old(db.tables)
    ensures res.status == 200 ==>
      res.body.NoteBody? && res.body.note.row.id == id && res.body.note.row == db.tables.notes[id] &&
      TagsDb.TagsOf(db.tables, id, res.body.note.tags) && ChildPagesOf(db.tables, id, res.body.note.childPages)
    ensures res.status == 500 ==> db.tables == old(db.tables)
  {
    var f := FieldsOf(body);
    ghost var t := db.tables;
    PatchedFacts(t, id, f, now);
    var r := UpdateNote(db, id, f, now);
    assert forall k :: k in db.tables.notes ==> db.tables.notes[k].parentId == t.notes[k].parentId by {
      forall k | k in db.tables.notes ensures db.tables.notes[k].parentId == t.notes[k].parentId {
        if k != id { } else { assert NoteOk(t, k); }
      }
    }
    match r
    case Err(_) =>
      res := Failure;
    case Ok(note) =>
      if note.None? {
        res := NotFound;
      } else {
        assert NoteOk(db.tables, id);
        res := Response(200, NoteBody(note.value));
      }
  }

  /** DELETE /:id answers success whether or not the note existed. */
  method Remove(db: Database, id: Id) returns (res: Response)
    requires Valid(db.tables)
    modifies db
    ensures db.tables == NoteDeleted(old(db.tables), id) && Valid(db.tables)
    ensures res == Response(200, SuccessBody)
  {
    DeleteNote(db, id);
    res := Response(200, SuccessBody);
  }
}
