# vault: a Dafny model of the note editor and its note store

vault is a single-user note application. Its browser client holds a
block editor and three side panels: the note list, tags and folders. The
client talks to a small Express server that keeps notes, folders and tags
in SQLite. This project models the discrete rules of both halves with
the DOM, SQL and HTTP layers replaced by abstract state, and proves
what those rules promise.

Module by module:

- **Schema** (`db/schema.js`)
  - The four tables are maps keyed by id, plus the `note_tags` link set.
  - `Valid` states what the schema enforces: primary keys, foreign keys
    (PRAGMA foreign_keys is ON), the UNIQUE tag name, and ids of 16
    lowercase hex digits.
  - `Acyclic` states that note parent links form a forest, shown by a rank
    that drops along every link.
  - `generateId`'s byte-to-hex encoding is modelled with its decoder.
  - The module-level `db` handle is the `Connection` class.
- **NotesDb, TagsDb, FoldersDb** (`db/notes.js`, `db/tags.js`, `db/folders.js`)
  - Each SQL statement is a pure function on the tables, with lemmas for
    validity and acyclicity.
  - Each exported function is a method on a `Database` object whose
    `ensures` ties the new tables to that function.
  - Listings are loops that select rows and insert them in `ORDER BY`
    order (module **Ordering**), stated as sortedness, distinctness and
    exact membership.
  - The clock (`datetime('now')`) and the 8 random bytes are parameters.
- **NotesRoutes** (`routes/notes.js`)
  - The route table is matched in registration order.
  - The handlers are modelled with their status codes and the translation
    of the PUT body into update fields.
- **EditorDoc, SlashMenu, Editor** (`public/js/editor.js`)
  - The editor's top-level children form a sequence of blocks. Each block
    has its DOM identity (a node number), its kind, its inner HTML and its
    text.
  - The caret is a node number.
  - The edit commands are functions on that document: `convertBlock`,
    every `insertBlock` kind, page embeds, the Enter rule, `ensureContent`
    and loading.
  - The slash menu is a state machine with a visibility vector and a
    highlight index.
  - The `Editor` class holds the module state (`currentNote`,
    `slashRange`, `slashActiveIndex`, title, pin, breadcrumbs). Its event
    handlers are methods proved against those functions.
- **NotesPanel, TagsPanel, FoldersPanel** (`public/js/notes.js`, `tags.js`, `folders.js`)
  - The module-level lists and selections are classes whose handlers
    update them.
  - A server reply and the user's confirmation are parameters of the
    handler that awaits them.
  - The panel resize handle is its own state machine.
- **Search, Utils, Text** (`public/js/search.js`, `public/js/utils.js`)
  - `escapeRegExp` with its inverse.
  - The `highlightMatch` guard and the search box's `isSearching` flag.
  - `truncate`, `wordCount`, `relativeTime` over elapsed milliseconds, and
    `debounce` as a timer on a virtual clock.
  - JavaScript's `trim`, `toLowerCase` and `includes`.

Behaviours of the code worth noting:

- the slash text is cleared before a child page is requested, and nothing
  restores it if the request fails (`public/js/editor.js:377`, `476`);
- `loadNote` does not reset the slash menu;
- the slash anchor is recorded even when no item matches and the menu stays
  hidden;
- the type picker's structural kinds clear the block's text and leave the
  anchor on the replaced block;
- `convertBlock` on a bare text node throws (`block.tagName` is
  undefined), so the type picker's text kinds do nothing there; its
  structural kinds still replace the node;
- saves have no in-flight guard;
- `createNote` reads the folder when clicked and the list when the reply
  arrives. A note created in one folder whose reply comes after another
  folder has loaded heads that other folder's list and is selected
  (`NotesPanel.NotesList.CreateNoteRequest`, then
  `NotesPanel.NotesList.CreateNote`);
- a tag's removal button keeps the note it was drawn for. After the
  reply, that note becomes the tag bar's note again, even if another note
  was opened meanwhile, so a later assignment links to it
  (`TagsPanel.TagBar.RemoveTag`);
- a tag pill click only marks the pill as active. The note list is
  reloaded for the current folder on both branches, and the fetch takes
  no tag, so the list is never narrowed to the tag
  (`public/js/tags.js:52-69`, `public/js/notes.js:107-110`);
- SQLite checks foreign keys once the row is in, so an INSERT whose
  `parent_id` equals the new id is accepted, and `getBreadcrumbs` never
  ends on that note (`NotesDb.SelfParentCycle`). `createNote` draws the
  id itself from 8 random bytes, so a caller would have to guess it;
  `NotesDb.GetBreadcrumbs` requires acyclic parent links.

## Model

| member | source | states |
|---|---|---|
| Schema.GenerateId | db/schema.js:88-92 | every id is exactly 16 characters, each in 0-9a-f |
| Schema.ByteHex | db/schema.js:91 | `toString(16).padStart(2,'0')` is always the two nibble digits, high first, zero-padded |
| Schema.HexJoin | db/schema.js:91 | the joined string has two hex characters per byte |
| Schema.HexValue | db/schema.js:91 | each hex digit decodes to the value that encodes back to it |
| Schema.SplitJoin | db/schema.js:91 | decoding the digit pairs gives back the bytes (round trip) |
| Schema.GenerateIdInjective | db/schema.js:88-92 | distinct random fills give distinct ids |
| Schema.EmptyIsValid | db/schema.js:24-63 | a fresh database satisfies every table constraint and has acyclic parent links |
| Schema.Connection.InitDatabase | db/schema.js:11-19 | the handle is set to the stored database, or to empty tables when there is no file |
| Schema.Connection.GetDb | db/schema.js:77-80 | fails with "not initialized" exactly when no database has been opened, and otherwise returns the handle |
| Ordering.InsertSorted | db/notes.js:7-16 | inserting a row at its `ORDER BY` position keeps the list sorted and adds exactly that row |
| Ordering.SortedSelect | db/notes.js:13-18 | the `stmt.step()` loop yields exactly the rows the WHERE clause keeps, each once, in ORDER BY order |
| Ordering.StrLeTotal | db/folders.js:5 | text collation is total (needed for `ORDER BY name`) |
| Ordering.StrLeTrans | db/folders.js:5 | text collation is transitive |
| Ordering.ReorderedPositions | db/notes.js:116-121 | after the loop, each listed id has its own index as position; no other row changes and no row is added |
| Ordering.ReorderedStep | db/notes.js:118-120 | one loop iteration writes index i into the i-th listed row if it exists |
| Ordering.LastIndexOf | db/notes.js:118-120 | the last occurrence of an id, which decides its final `sort_order` when ids repeat |
| NotesDb.OrdersTotal | db/notes.js:7 | the three note orderings (pinned desc, sort_order, updated_at desc; the search order; the child order) are total preorders |
| NotesDb.RowsInjective | db/notes.js:13-16 | distinct keys hold distinct rows, so listing rows never duplicates one |
| NotesDb.GetAllNotes | db/notes.js:3-19 | exactly the notes with no parent (in the folder if one is given), each once, pinned first, then sort_order ascending, then updated_at descending |
| NotesDb.SearchNotes | db/notes.js:124-140 | exactly the notes whose title or content contains the query, each once, pinned first then newest first |
| NotesDb.GetChildPages | db/notes.js:56-67 | exactly the summaries of the notes whose parent is this note, ordered by sort_order then created_at |
| NotesDb.GetNoteById | db/notes.js:21-37 | null iff the id is unknown; otherwise the row with exactly its linked tags and child pages |
| NotesDb.FreshNoteIsBare | db/notes.js:77 | a note nobody links to or descends from has no tags and no child pages |
| NotesDb.InsertNoteFacts | db/notes.js:72-75 | this row also covers `NotesDb.InsertNote`, the statement function it is about: the INSERT succeeds iff the id is new, the folder exists and the parent exists or is the new note itself (foreign keys are checked after the row is in); it keeps every constraint; it keeps acyclicity unless the note is its own parent, which makes a cycle |
| NotesDb.SelfParentCycle | db/notes.js:72-75 | a note that is its own parent breaks acyclicity |
| NotesDb.CreateNote | db/notes.js:69-78 | stores one row under the generated id with the given or default title 'Untitled', content '', no folder, no parent, unpinned, order 0, both dates now; returns it bare; a constraint failure changes nothing |
| NotesDb.UpdateNote | db/notes.js:80-101 | with no whitelisted defined field the note is returned untouched (updated_at kept); otherwise only the given columns and updated_at change, on that note only, or the statement fails and nothing changes; a returned note carries exactly its tags and child pages |
| NotesDb.PatchedFacts | db/notes.js:86-98 | this row also covers `NotesDb.Patched`, the statement function it is about: the UPDATE keeps every constraint, every other note and the key set, and keeps parent links acyclic when parent_id is not written |
| NotesDb.FlipFacts | db/notes.js:111 | the CASE yields 0 or 1, and flipping twice from 0 or 1 restores the flag |
| NotesDb.PinToggledTwice | db/notes.js:109-114 | this row also covers `NotesDb.PinToggled`, the statement function it is about: toggling a pin twice restores the note except for updated_at |
| NotesDb.TogglePin | db/notes.js:109-114 | the new tables are the toggled ones and stay acyclic; the reply is null iff the note does not exist, else the updated row with exactly its tags and child pages |
| NotesDb.PinToggledAcyclic | db/notes.js:111 | toggling a pin keeps the parent links a forest |
| NotesDb.ReorderedFacts | db/notes.js:116-121 | reordering keeps the constraints and acyclicity, and each listed note's sort_order becomes its index |
| NotesDb.ReorderNotes | db/notes.js:116-122 | only sort_order of listed notes changes, as the loop writes it |
| NotesDb.NoteDeletedFacts | db/schema.js:40-41 | this row also covers `NotesDb.NoteDeleted`, the statement function it is about: deleting a note removes it, nulls its children's parent_id, drops its tag links (CASCADE), and keeps the constraints and acyclicity |
| NotesDb.DeleteNote | db/notes.js:103-107 | the tables become the note-deleted tables |
| NotesDb.TrailUnique | db/notes.js:142-161 | the breadcrumb list is determined by the parent links |
| NotesDb.ChildTrail | db/notes.js:142-161 | a child page of a top-level note has the trail parent, then itself |
| NotesDb.GetBreadcrumbs | db/notes.js:142-161 | on acyclic links the walk ends with the chain from the root ancestor down to the note, each entry the parent of the next; an unknown id gives [] |
| TagsDb.NameOrderTotal | db/tags.js:10 | ordering by name is a total preorder |
| TagsDb.GetAllTags | db/tags.js:3-18 | each tag exactly once with note_count its number of links (0 if none), sorted by name |
| TagsDb.TagsForNote | db/tags.js:62-76 | exactly the tags linked to the note, each once |
| TagsDb.InsertTagValid | db/tags.js:33-34 | this row also covers `TagsDb.InsertTag`, the statement function it is about: inserting a tag with a new name succeeds iff the id is free, keeps the constraints and makes the name present |
| TagsDb.CreateTag | db/tags.js:20-38 | an existing name returns the existing tag and inserts nothing; a new name inserts one tag (color defaulting to '#00d4ff') and reports note_count 0 |
| TagsDb.CreateTagTwice | db/tags.js:20-38 | creating the same name twice yields the same tag both times (idempotent by name) |
| TagsDb.TagDeletedValid | db/schema.js:60 | this row also covers `TagsDb.TagDeleted`, the statement function it is about: deleting a tag removes it and, by the cascade, exactly its links |
| TagsDb.DeleteTag | db/tags.js:40-44 | the tables become the tag-deleted tables |
| TagsDb.LinkedFacts | db/tags.js:46-54 | this row also covers `TagsDb.Linked`, the statement function it is about: INSERT OR IGNORE is idempotent, adds only that pair and only when both ends exist |
| TagsDb.AddTagToNote | db/tags.js:46-54 | the tables become the linked tables and stay valid |
| TagsDb.UnlinkUndoesLink | db/tags.js:56-60 | this row also covers `TagsDb.Unlinked`, the statement function it is about: removing a freshly added link restores the tables |
| TagsDb.RemoveTagFromNote | db/tags.js:56-60 | the tables become those without exactly that link |
| FoldersDb.FolderOrderTotal | db/folders.js:5 | sort_order then name is a total preorder |
| FoldersDb.GetAllFolders | db/folders.js:3-12 | every folder exactly once, ordered by sort_order then name |
| FoldersDb.GetFolderById | db/folders.js:25-35 | null iff the id is unknown, otherwise that folder |
| FoldersDb.InsertFolderFacts | db/folders.js:17-20 | this row also covers `FoldersDb.InsertFolder`, the statement function it is about: the INSERT succeeds iff the id is new and the parent exists or is the new folder itself (foreign keys are checked after the row is in); it keeps the constraints and the notes |
| FoldersDb.CreateFolder | db/folders.js:14-23 | inserts one folder with the given name and parent (default null) and returns it, or fails and changes nothing |
| FoldersDb.PatchedFacts | db/folders.js:43-55 | this row also covers `FoldersDb.Patched`, the statement function it is about: the UPDATE keeps the constraints, the notes and every other folder |
| FoldersDb.UpdateFolder | db/folders.js:37-58 | no defined name/parent_id/sort_order returns the folder unchanged; otherwise exactly those columns and updated_at change |
| FoldersDb.FolderDeletedFacts | db/schema.js:28 | this row also covers `FoldersDb.FolderDeleted`, the statement function it is about: deleting a folder removes it, nulls folder_id on its notes and parent_id on its subfolders, keeps every note and acyclicity |
| FoldersDb.DeleteFolder | db/folders.js:60-64 | the tables become the folder-deleted tables |
| FoldersDb.ReorderedFacts | db/folders.js:66-72 | each listed folder's sort_order becomes its index and the constraints hold |
| FoldersDb.ReorderFolders | db/folders.js:66-72 | only sort_order of listed folders changes |
| NotesRoutes.Bind | routes/notes.js:28 | a pattern binds only paths of its own length; `:id` takes one non-empty segment |
| NotesRoutes.FirstFrom | routes/notes.js:5-62 | the match found is the first route from i on that serves the request, or none serves it |
| NotesRoutes.Dispatch | routes/notes.js:5-62 | a request goes to the first registered route that serves it |
| NotesRoutes.ReorderBeforeUpdate | routes/notes.js:20-25 | PUT /reorder also fits PUT /:id but reaches the reorder handler |
| NotesRoutes.SubRoutes | routes/notes.js:27-37 | GET /:id/breadcrumbs and PATCH /:id/pin reach their own handlers with the id |
| NotesRoutes.IdRoutes | routes/notes.js:39-62 | any other id reaches the generic GET, PUT and DELETE handlers |
| NotesRoutes.List | routes/notes.js:8-12 | 200 with exactly the top-level notes of the folder, each once, in `getAllNotes`' ORDER BY order; an empty folder_id means all folders |
| NotesRoutes.Create | routes/notes.js:14-18 | passes title, content, folderId and parentId through (omitted ones take the defaults) and answers 201 with the inserted row, no tags and its child pages (none unless it is its own parent), or 500 with nothing changed |
| NotesRoutes.Reorder | routes/notes.js:20-25 | a non-array noteIds answers 400 and changes nothing; otherwise the reorder and 200 |
| NotesRoutes.Breadcrumbs | routes/notes.js:28-31 | 200 with the breadcrumb trail |
| NotesRoutes.Pin | routes/notes.js:33-37 | toggles the pin, keeping acyclicity; 404 when the note does not exist, else 200 with the row, its tags and its child pages |
| NotesRoutes.Read | routes/notes.js:40-44 | 404 for an unknown id, otherwise 200 with the stored row, its tags and its child pages |
| NotesRoutes.FieldsOf | routes/notes.js:47-52 | only defined body fields are forwarded, renamed to their columns; isPinned is coerced to 1 or 0 by truthiness; parent_id is never forwarded |
| NotesRoutes.Write | routes/notes.js:46-57 | 404 and no change for an unknown id; the note set and every parent link are kept, so acyclicity is preserved; a 200 carries the stored row, its tags and its child pages |
| NotesRoutes.Remove | routes/notes.js:59-62 | deletes the note and answers success |
| EditorDoc.Find | public/js/editor.js:843-845 | locates the direct child with that node identity, or says there is none |
| EditorDoc.CurrentBlock | public/js/editor.js:828-841 | the caret's block when the caret is on a direct child of the editor, and none otherwise |
| EditorDoc.Convert | public/js/editor.js:843-853 | this row also covers `EditorDoc.ReplaceNode`, the statement function it is about: no change when the node is not a direct child or already has the tag; otherwise the block is replaced in place by one of the new tag with the same content (or `<br>` if empty), other blocks untouched, caret in the new block |
| EditorDoc.ClearText | public/js/editor.js:376-377 | the block count, the caret and the node counter are kept; what happens to the block is stated by `EditorDoc.ClearTextClears` |
| EditorDoc.ClearTextClears | public/js/editor.js:376-377 | the first block holding the node loses its html and text, keeping its kind and node; every other block, the caret and the node counter are unchanged; without such a block nothing changes |
| EditorDoc.Commit | public/js/editor.js:371-466 | the anchor's text is cleared, then the switch runs: a child note is requested iff the type is 'page' and a note is open, titled 'Untitled page' under that note; 'page' changes nothing but the cleared block; node identities are never reused |
| EditorDoc.CommitCleared | public/js/editor.js:379-466 | the switch of `insertBlock`: only 'page' with a note open requests a child; 'page' and unknown types leave the document alone; a known type on a node outside the editor leaves the blocks alone |
| EditorDoc.CommitForgetsContent | public/js/editor.js:371-466 | the anchor block's text is cleared first, so what a slash commit produces does not depend on the block's content |
| EditorDoc.CommitRuleShape | public/js/editor.js:446-455 | 'hr' yields the rule block then an empty paragraph holding the caret, all other blocks in place |
| EditorDoc.CommitParagraphOnParagraph | public/js/editor.js:376-382 | choosing 'p' on a paragraph leaves one empty paragraph |
| EditorDoc.CommitPageWithoutNote | public/js/editor.js:472-473 | 'page' without a current note only clears the slash text and requests nothing |
| EditorDoc.CommitPageRequest | public/js/editor.js:472-479 | 'page' with a current note requests a child titled 'Untitled page' with content `<p><br></p>` under that note, after emptying the block and changing nothing else |
| EditorDoc.PagePlaced | public/js/editor.js:481-491 | the block count grows by one when the block is still in the editor and not at all otherwise; the caret goes to the fresh paragraph |
| EditorDoc.PagePlacedShape | public/js/editor.js:481-491 | the reply replaces the block by the page block, then an empty paragraph holding the caret |
| EditorDoc.EnterAt | public/js/editor.js:268-289 | Enter without Shift in h1/h2/h3/hr inserts exactly one empty paragraph right after it and moves the caret there; otherwise nothing changes |
| EditorDoc.EnsureContent | public/js/editor.js:189-202 | a blank editor becomes exactly one empty paragraph with the caret; other content is left alone; the result is never blank |
| EditorDoc.EnsureContentIdempotent | public/js/editor.js:189-202 | applying it twice is applying it once |
| EditorDoc.BlankEditorsReset | public/js/editor.js:191-192 | an empty, `<br>`-only or whitespace-only editor (whitespace other than a no-break space) is reset |
| EditorDoc.NbspContentKept | public/js/editor.js:189-192 | a text node holding a no-break space serialises as `&nbsp;`, so the editor is not blank and is left alone |
| EditorDoc.EscapePlain | public/js/editor.js:191 | this row also covers `EditorDoc.Html`, the statement function it is about: text without `&`, `<`, `>` or a no-break space serialises unchanged |
| EditorDoc.OpensParagraphByTag | public/js/editor.js:271-281 | a paragraph is opened after exactly the h1, h2, h3 and hr tags |
| EditorDoc.ElementContentKept | public/js/editor.js:191-192 | an editor holding any element other than a bare `<br>` is kept |
| EditorDoc.Numbered | public/js/editor.js:127 | parsed children become blocks with fresh node identities, in order |
| EditorDoc.Loaded | public/js/editor.js:127 | a note without content shows one empty paragraph; otherwise its parsed children; no caret |
| EditorDoc.LoadedEmptyIsEnsured | public/js/editor.js:127 | loading an empty note gives the same single paragraph as `ensureContent` |
| EditorDoc.Inserted | public/js/editor.js:371-374 | the target is the slash anchor, else the caret's block; with neither nothing happens |
| SlashMenu.Shown | public/js/editor.js:321-326 | an item is visible iff the query is empty or a substring of its lowercased label |
| SlashMenu.CountShown | public/js/editor.js:319-331 | the visible count is zero iff no item is visible |
| SlashMenu.CountShownAppend | public/js/editor.js:325 | each visible item adds one to the count |
| SlashMenu.CountMatches | public/js/editor.js:316-331 | the loop computes exactly the visibility vector and the visible count |
| SlashMenu.NthShown | public/js/editor.js:351-358 | the k-th visible item exists when k is below the count |
| SlashMenu.Initial | public/js/editor.js:8-9 | the menu starts hidden without an anchor |
| SlashMenu.Show | public/js/editor.js:316-344 | visibility as above; shown iff some item matches; the highlight resets to 0; zero matches hide the menu |
| SlashMenu.AfterInput | public/js/editor.js:296-314 | text starting with '/' records the anchor and filters by the lowercased rest; anything else hides the menu |
| SlashMenu.SlashAloneShowsAll | public/js/editor.js:304-342 | a lone '/' shows every item with the first highlighted |
| SlashMenu.CaseInsensitive | public/js/editor.js:308 | the query's letter case does not matter |
| SlashMenu.Hide | public/js/editor.js:346-349 | the menu is hidden and the anchor dropped; the visibility and highlight stay |
| SlashMenu.Key | public/js/editor.js:245-265 | the arrows move the highlight by at most one and keep it among the visible items; Escape hides the menu and drops the anchor; other keys change nothing |
| SlashMenu.KeyKeepsMenuOk | public/js/editor.js:245-265 | ArrowDown/ArrowUp move the highlight within [0, count-1]; Escape hides the menu and drops the anchor |
| SlashMenu.Highlighted | public/js/editor.js:255-258 | Enter commits the visible item whose rank among visible items is the highlight |
| Editor.CrumbItems | public/js/editor.js:160-181 | one breadcrumb item per crumb |
| Editor.CrumbsFollowParents | public/js/editor.js:160-181 | the last item is the current note and opens nothing; every earlier item is its ancestor's title ('Untitled' when blank) and opens that ancestor; each item opens the parent of the next, and the one before the last opens the note's parent |
| Editor.PickerTag | public/js/editor.js:726-732 | the picker's text kinds map to their own tag, 'code' to pre and 'quote' to blockquote |
| Editor.PickerKindsDisjoint | public/js/editor.js:726-736 | no picker choice is both a text kind and a structural kind |
| Editor.ToolbarLabel | public/js/editor.js:619-622 | the type button reads 'Text' exactly for p and the tags `typeMap` does not know |
| Editor.ToolbarLabelNamesTag | public/js/editor.js:619-622 | distinct convertible tags get distinct names, and the picker's code and quote read 'Code' and 'Quote' |
| Editor.PickKeepsContent | public/js/editor.js:720-742 | a text kind converts the block in place, keeping its text, and hides the picker |
| Editor.Picked | public/js/editor.js:720-742 | without a current block nothing happens and the picker stays; a text kind on a bare text node does nothing and leaves the picker shown (convertBlock throws on it), and on an element hides the picker and requests nothing; only 'page' with a note open requests a child; a text kind never touches the slash menu; an unknown type only hides the picker |
| Editor.PickComplexIsCommit | public/js/editor.js:733-741 | a structural kind records the anchor and commits exactly as the slash menu does |
| Editor.SaveStatusDistinct | public/js/editor.js:888-909 | 'saving', 'saved' and 'error' show three distinct texts, none 'Ready', each with a class |
| Editor.SaveStatus | public/js/editor.js:888-909 | 'Ready' is shown exactly for a status other than 'saving', 'saved' and 'error', and then with no class |
| Editor.WordCountLabel | public/js/editor.js:880-886 | one word reads '1 word'; any other count reads as its decimal numeral then ' words' ('0 words' for none) |
| Editor.Editor.constructor | public/js/editor.js:5-10 | no note, no crumbs, hidden menu |
| Editor.Editor.LoadNote | public/js/editor.js:118-143 | records the note, title (or ''), pin flag and loaded content; fetches breadcrumbs only for a child note, else hides them; leaves the slash menu as it was |
| Editor.Editor.ShowBreadcrumbs | public/js/editor.js:155-183 | shows the fetched trail and nothing else changes |
| Editor.Editor.ClearEditor | public/js/editor.js:145-149 | forgets the note and hides the editor |
| Editor.Editor.EnsureContent | public/js/editor.js:189-202 | the document becomes `ensureContent` of the old one |
| Editor.Editor.SlashInput | public/js/editor.js:296-314 | the menu becomes the slash rule applied to the caret block's text |
| Editor.Editor.ClickSlashItem | public/js/editor.js:361-369 | commits the clicked item at the anchor and hides the menu |
| Editor.Editor.Keydown | public/js/editor.js:241-290 | with the menu open, Enter commits the highlighted item and other keys move or close the menu; otherwise Enter applies the heading/hr rule |
| Editor.Editor.PickType | public/js/editor.js:717-743 | the new state is the picker outcome |
| Editor.Editor.CompletePage | public/js/editor.js:481-491 | places the page block and saves |
| Editor.Editor.TriggerSave | public/js/editor.js:103-112 | a save is sent iff a note is open, with its id, the title and the editor's HTML |
| NotesPanel.AfterLoad | public/js/notes.js:113-123 | clears the editor iff the list is empty, keeps a selection that still exists, and otherwise selects the first note |
| NotesPanel.LoadSelectsListed | public/js/notes.js:113-123 | after a load the selection is a listed note, or none iff the list is empty |
| NotesPanel.FolderLoadSelectsFirst | public/js/notes.js:318-323 | a folder switch (no selection) selects the first note |
| NotesPanel.PinSorted | public/js/notes.js:252-255 | the re-sorted list is a permutation of the old one |
| NotesPanel.PinSortedFacts | public/js/notes.js:252-255 | the re-sort puts pinned first, is a permutation, and keeps the relative order within each pin group (stable) |
| NotesPanel.InsertWithPin | public/js/notes.js:252-255 | one insertion step keeps each pin group's order |
| NotesPanel.WithPinMembers | public/js/notes.js:252-255 | the members of one pin group |
| NotesPanel.IndexOf | public/js/notes.js:209 | the first card with the id, or -1 when none |
| NotesPanel.Without | public/js/notes.js:269 | exactly the cards with another id remain |
| NotesPanel.WithoutConcat | public/js/notes.js:269 | the filter distributes over concatenation, so the remaining cards keep their order |
| NotesPanel.WithoutAbsent | public/js/notes.js:269 | a list that does not hold the id comes back unchanged, order included |
| NotesPanel.Saved | public/js/notes.js:209-212 | only the matching card's title, content and updated_at change |
| NotesPanel.Repinned | public/js/notes.js:244-247 | only the matching card's pin flag changes |
| NotesPanel.CreatedNoteListed | public/js/notes.js:222-226 | the body `createNote` posts makes the server store a top-level, unpinned note titled 'Untitled' holding `<p><br></p>` in the posted folder, so that folder's listing and the all-notes listing include it |
| NotesPanel.DeleteForgetsNote | public/js/notes.js:269-279 | the deleted note is gone and the first remaining note, if any, is selected |
| NotesPanel.NotesList.LoadNotes | public/js/notes.js:107-126 | stores the list and folder and applies the selection rule |
| NotesPanel.NotesList.SelectNote | public/js/notes.js:184-195 | the selection becomes that note |
| NotesPanel.NotesList.StartSave | public/js/notes.js:202-203 | before the request the status is 'saving' and the list is unchanged |
| NotesPanel.NotesList.FinishSave | public/js/notes.js:204-218 | once the request settles, status 'saved' with only the matching entry updated, or 'error' with the list unchanged |
| NotesPanel.NotesList.CreateNoteRequest | public/js/notes.js:221-226 | the body posted is the 'Untitled' new-note body for the folder shown at the time of the click |
| NotesPanel.NotesList.CreateNote | public/js/notes.js:228-230 | the note the server returns goes to the front of the list as it is when the reply arrives, and is selected |
| NotesPanel.NotesList.TogglePin | public/js/notes.js:240-257 | without a selection nothing changes; otherwise the entry is repinned and the list re-sorted pinned-first |
| NotesPanel.NotesList.DeleteCurrentNote | public/js/notes.js:259-280 | nothing without a selection or confirmation; otherwise exactly that id leaves the list and the selection moves to the first remaining note or is cleared |
| NotesPanel.NotesList.SetCurrentFolder | public/js/notes.js:318-323 | sets the folder, clears the selection, names the header ('All Notes' for none) and reloads |
| NotesPanel.Clamp | public/js/notes.js:93 | the width is clamped into [min, max] and kept when inside |
| NotesPanel.DragMonotone | public/js/notes.js:77-94 | collapse happens iff the new width is below half the minimum; dragging further right never narrows the panel |
| NotesPanel.ResizeHandle.DoubleClick | public/js/notes.js:52-62 | flips the collapsed state |
| NotesPanel.ResizeHandle.MouseDown | public/js/notes.js:65-73 | starts a drag at x from the current width (250 when unreadable) |
| NotesPanel.ResizeHandle.MouseMove | public/js/notes.js:75-96 | ignored unless dragging; collapses without changing the width, or un-collapses at the clamped width |
| NotesPanel.ResizeHandle.MouseUp | public/js/notes.js:98-104 | ends the drag |
| TagsPanel.DropdownQuery | public/js/tags.js:118-121 | the query is the trimmed, lowercased input |
| TagsPanel.Available | public/js/tags.js:127-134 | offered tags are those not on the note whose lowercased name contains the query (all of them for the empty query) |
| TagsPanel.DropdownFacts | public/js/tags.js:123-156 | no offered tag is on the note; the create option appears only when no tag has exactly that name; the empty hint and the create option exclude each other |
| TagsPanel.ExactNameOffered | public/js/tags.js:132-145 | typing an unassigned tag's exact name offers it and no create option |
| TagsPanel.Pushed | public/js/tags.js:159-163 | assigning appends the tag to the note's list, creating the list when missing |
| TagsPanel.Removed | public/js/tags.js:91 | the result holds exactly the tags with another id, and none with that id |
| TagsPanel.RemovedConcat | public/js/tags.js:91 | the filter of a concatenation is the concatenation of the filters, so the kept tags stay in order |
| TagsPanel.RemovedAbsent | public/js/tags.js:91 | a list without that id comes back unchanged |
| TagsPanel.RemovedKeepsOrder | public/js/tags.js:91 | removing a tag from the middle leaves the tags before it, then the tags after it |
| TagsPanel.RemoveUndoesPush | public/js/tags.js:89-94 | removing a just-assigned tag restores the list |
| TagsPanel.CreateNameSources | public/js/tags.js:169-173 | the create option uses the lowercased query, Enter the trimmed input as typed |
| TagsPanel.TagBar.LoadAllTags | public/js/tags.js:36-39 | the known tags become the fetched list; the note, filter and dropdown stay |
| TagsPanel.TagBar.LoadNoteTags | public/js/tags.js:75-76 | the current note becomes the loaded one; the tags, filter and dropdown stay |
| TagsPanel.TagBar.Dropdown | public/js/tags.js:123-156 | the dropdown shows the available tags, the create option and the empty hint as the rules say |
| TagsPanel.TagBar.AssignTag | public/js/tags.js:158-167 | without a note nothing happens; otherwise links the tag, appends it, closes the dropdown and reloads all tags |
| TagsPanel.TagBar.CreateAndAssign | public/js/tags.js:169-184 | nothing without a name or a note; otherwise requests the tag by name, then the link of the created tag to the note, appends it, closes the dropdown and reloads all tags |
| TagsPanel.TagBar.RemoveTag | public/js/tags.js:89-94 | sends the unlink of the note the bar was drawn for and that tag; that note, losing exactly that tag, becomes the bar's note again whatever note was loaded meanwhile; all tags are reloaded |
| TagsPanel.TagBar.ToggleDropdown | public/js/tags.js:100-112 | an open dropdown closes and a closed one opens; tags, note and filter are unchanged |
| TagsPanel.TagBar.CloseDropdown | public/js/tags.js:114-116 | the dropdown is closed; nothing else changes |
| TagsPanel.TagBar.PillClick | public/js/tags.js:59-69 | toggles the active filter between that tag and none, and reloads the note list on both branches |
| TagsPanel.PillToggle | public/js/tags.js:60-67 | clicking the same pill twice restores the filter; a different pill selects itself |
| FoldersPanel.CreateRequest | public/js/folders.js:103-110 | names blank after trimming are ignored; otherwise the trimmed name is sent |
| FoldersPanel.RenameRequest | public/js/folders.js:162-169 | a rename is sent only when the trimmed value is non-empty and differs from the old name |
| FoldersPanel.UnchangedInputKeepsName | public/js/folders.js:162-169 | confirming an unedited, already-trimmed name sends nothing |
| FoldersPanel.EscapeRenamesPaddedName | public/js/folders.js:177-180 | see Findings: as written, Escape renames ' Work' to 'Work' |
| FoldersPanel.EscapeRename | public/js/folders.js:177-180 | Escape never sends a rename |
| FoldersPanel.EscapeRenameAgrees | public/js/folders.js:162-180 | the code as written agrees with that exactly when the old name is blank or already trimmed |
| FoldersPanel.ActiveStates | public/js/folders.js:92-101 | All Notes is active iff no folder is, and a folder item iff its id is the active one |
| FoldersPanel.OneHighlight | public/js/folders.js:92-101 | with distinct ids at most one entry is highlighted, and one is when the active folder is listed |
| FoldersPanel.Without | public/js/folders.js:136 | exactly the other folders remain |
| FoldersPanel.WithoutConcat | public/js/folders.js:136 | the filter distributes over concatenation, so the remaining folders keep their order |
| FoldersPanel.WithoutAbsent | public/js/folders.js:136 | a list that does not hold the id comes back unchanged, order included |
| FoldersPanel.Renamed | public/js/folders.js:165-166 | only that folder's name changes |
| FoldersPanel.FolderTree.LoadFolders | public/js/folders.js:24-27 | stores the fetched folders |
| FoldersPanel.FolderTree.ShowAllNotes | public/js/folders.js:10-14 | the active folder becomes none and the notes of all folders are shown |
| FoldersPanel.FolderTree.FolderClick | public/js/folders.js:50-55 | the active folder becomes that folder |
| FoldersPanel.FolderTree.CreateFolder | public/js/folders.js:103-110 | sends the trimmed name and appends the created folder, or ignores a blank answer |
| FoldersPanel.FolderTree.FinishRename | public/js/folders.js:150-182 | sends the rename the rules allow and applies it; Escape runs the same rule on the old name, as written (see Findings); the folders are reloaded whether or not a rename was sent |
| FoldersPanel.FolderName | public/js/folders.js:84 | the name of the first folder with the id, none exactly when no folder has it |
| FoldersPanel.ActiveView | public/js/folders.js:84 | the active folder with its listed name, All Notes when none is active, no name when it is not listed |
| FoldersPanel.FolderTree.DropNote | public/js/folders.js:77-86 | a drop carrying a note id moves that note into the folder and re-shows the active folder; an empty drop does nothing |
| FoldersPanel.FolderTree.DeleteFolder | public/js/folders.js:133-144 | after confirmation the folder leaves the list and an active folder resets to All Notes |
| Search.EscapeRegExp | public/js/search.js:83-85 | the output is the input plus one backslash per special character |
| Search.UnescapeEscape | public/js/search.js:84 | dropping the inserted backslashes gives back the input |
| Search.EscapedIsLiteral | public/js/search.js:84 | every special character of the output is escaped, so the pattern matches the query literally |
| Search.HighlightMatch | public/js/search.js:76-81 | empty text or query adds no mark; otherwise the pattern is one group matching the query literally |
| Search.SearchBox.ClearSearch | public/js/search.js:87-91 | reloads only while searching, then clears the flag |
| Search.SearchBox.OnInput | public/js/search.js:10-17 | a query blank after trimming clears the search; otherwise searches for the trimmed query |
| Search.SearchBox.OnEscape | public/js/search.js:21-27 | empties the input and clears the search |
| Search.ClearTwice | public/js/search.js:87-91 | a second clear does nothing |
| Utils.Truncate | public/js/utils.js:27-30 | text of at most maxLen characters is returned as is; longer text is its first maxLen characters then '...' |
| Utils.WordCount | public/js/utils.js:58-61 | 0 for empty or whitespace-only text; otherwise the number of maximal non-whitespace runs, at least 1 |
| Utils.WordsOfTrim | public/js/utils.js:60 | trimming does not change the number of runs |
| Utils.WordsAndGaps | public/js/utils.js:60 | splitting trimmed text on whitespace runs gives one piece per non-whitespace run |
| Utils.WordsConcat | public/js/utils.js:60 | the run count of a concatenation is the sum with the boundary accounted for |
| Utils.RelativeTime | public/js/utils.js:9-25 | '' for an empty date; then just now / Nm / Nh / Nd ago with N floored, and a date from 7 days on |
| Utils.AgeText | public/js/utils.js:19-22 | only the blank bucket gives ''; the minute, hour and day buckets read as the decimal numeral of N followed by 'm ago', 'h ago' or 'd ago' |
| Utils.NestedFloor | public/js/utils.js:14-17 | chained floors equal one floor by the product, so the buckets are elapsed/60000, /3600000 and /86400000 |
| Utils.Elapse | public/js/utils.js:5 | a pending timer fires its own arguments once it is due, and is then idle |
| Utils.BurstRunsNothing | public/js/utils.js:3-6 | during a burst of calls each less than ms apart nothing runs and only the last call stays pending |
| Utils.BurstFiresOnceWithLastArgs | public/js/utils.js:1-7 | a burst runs fn once, with the last call's arguments, ms after that call |
| Utils.Debouncer.Invoke | public/js/utils.js:3-6 | each call cancels the pending one and schedules itself ms later |
| Utils.Debouncer.Tick | public/js/utils.js:5 | advancing the clock fires the pending call when due |
| Text.Trim | public/js/folders.js:105 | `trim` leaves no whitespace at either end and is a contiguous piece of the input with only whitespace cut from both sides |
| Text.NatToString | public/js/utils.js:20-22 | the decimal numeral of n: no leading zero and its digits read back as n |
| Text.TrimEmptyIff | public/js/folders.js:105 | a string trims to '' iff it is all whitespace |
| Text.TrimOfTrimmed | public/js/folders.js:163 | trimming a trimmed string changes nothing |
| Text.Lower | public/js/tags.js:119 | `toLowerCase` maps each character |

## Left out

- Inline formatting through `document.execCommand`, `queryCommandState`, the inline-code toggle, the colour picker and the Ctrl shortcuts: these are browser APIs with no visible semantics.
- innerHTML parsing and serialisation and DOMPurify. A loaded note's children arrive as already parsed parts. `Html` escapes the text of text nodes the way the serialiser does (`&`, no-break space, `<`, `>`), takes the markup of an element's content as already serialised, and leaves out the attributes of loaded elements.
- Focus, caret placement inside a block, `scrollIntoView`, menu positioning, CSS-only classes, the outside-mousedown hide, `rebindPageBlocks`' listener cloning and the MutationObserver wiring. The caret is the node of the top-level block holding it.
- Typing in the editor: the browser's own edits to blocks are not modelled, and neither is typing in the title input (`public/js/editor.js:65`), whose `input` event is what most often schedules a save. `Editor.Editor.title` is set only when a note is loaded. `Editor.Editor.TriggerSave` sends whatever title it holds. The handlers read the document as it is.
- `escapeHtml`, `stripMarkdown` and the case-insensitive replace inside `highlightMatch`: these are DOM and regular-expression behaviour. `Search.HighlightMatch` states the guard and the pattern only.
- `toLowerCase` and `\s` are modelled on ASCII letters and on the ECMAScript whitespace set. Lengths are counted in characters rather than UTF-16 code units.
- `LIKE`'s wildcard characters `%` and `_` inside the query: `Like` is a substring test that ignores the case of ASCII letters, as SQLite's `LIKE` does.
- `datetime('now')` is an integer clock parameter. Since its text form orders like time, string comparison is modelled as integer comparison.
- `Date` parsing, `toLocaleDateString` and the current time: `Utils.RelativeTime` takes the elapsed milliseconds and returns a bucket, and the date text is not modelled.
- `initDatabase`'s file reading, `saveDatabase`'s file writing and the sessions table: these are file I/O. The random fill of `generateId` is a parameter.
- Express itself: JSON parsing, case-insensitive paths and trailing slashes, authentication (`requireAuth`) and sessions. A thrown SQL error becomes the 500 response.
- `reorderNotes` with elements that are not ids: the reorder body is modelled as a list of ids.
- Rejected client requests: each awaited reply (and each confirmation dialog) is a parameter of the handler. A failing request is modelled only where the code catches it (`onNoteChange`).
- Rendering of note cards, the tag cloud, the folder tree and the count labels; `toggleTagDropdown`/`closeTagDropdown` beyond the `dropdownOpen` flag they set (the cleared search input and the focus).
- `localStorage` persistence of panel widths, `public/js/dragdrop.js`, the sidebar toggle buttons, loading and visual effects, login, `Math.random` and `randomTagColor`.
- Overlapping saves and the async ordering of `selectNote` and `loadBreadcrumbs`: the code has no in-flight guard, and neither does the model.
- Shared state read again after an `await`. `NotesPanel.NotesList.TogglePin` (`public/js/notes.js:242-246`), `NotesPanel.NotesList.DeleteCurrentNote` (`public/js/notes.js:268-270`), `TagsPanel.TagBar.AssignTag` (`public/js/tags.js:160-164`), `TagsPanel.TagBar.CreateAndAssign` (`public/js/tags.js:176-181`) and `FoldersPanel.FolderTree.DropNote` (`public/js/folders.js:82-84`) each apply the reply to the current note, tag-bar note or active folder as it is when the reply arrives. The model takes one step with the state as it was when the request was sent. If the selection changes while the request is in flight, the code applies the reply to the new selection (a pin lands on another card, another note drops off the list), and the model does not capture that.
- The debounced title and content save wiring in `initEditor`: `Utils.Debouncer` models `debounce` itself, and `Editor.Editor.TriggerSave` models what one firing sends.
- `getDb`'s failure is modelled only in `Schema.Connection`. The store operations take an initialised `Database`.
- NotesRoutes.Create: a JSON null title or content is not modelled. `CreateBody` holds a string or undefined for each; a null title would fail the NOT NULL constraint (500) and a null content would be stored as NULL.
- NotesRoutes.Write: states the 404 rule, that the key set and parent links are kept, and that a 500 changes nothing. It does not restate the updated row: that is `NotesDb.UpdateNote`'s contract applied to `NotesRoutes.FieldsOf(body)`.
- NotesRoutes.Write: a JSON null title, content or sortOrder is not modelled. `UpdateBody` holds a value or undefined for each; a null title would fail the NOT NULL constraint (500), and a null content or sort order would be stored as NULL.
- Editor.CrumbItems: its own contract states only the length. The text, current flag and click target of every item are stated by `Editor.CrumbsFollowParents` over a breadcrumb trail.

## Findings

| source | as written | input that shows it | evidently intended | confidence | as-written member | corrected member |
|---|---|---|---|---|---|---|
| public/js/folders.js:162-180 | Escape puts the old name back into the input and blurs it. The blur handler then trims that value and compares it with the old name, so a stored name with surrounding whitespace gets sent as a rename. The server stores names untrimmed. | a folder named " Work" (created through the API, which does not trim), renamed and then cancelled with Escape: PUT name "Work" | Escape never renames | medium, not executed | FoldersPanel.EscapeRenamesPaddedName | FoldersPanel.EscapeRename |

`FoldersPanel.FolderTree.FinishRename` models the panel as it is written, so its Escape branch sends what `EscapeRenameAsWritten` computes. `FoldersPanel.EscapeRename` is the intended rule, and `FoldersPanel.EscapeRenameAgrees` states when the two coincide.
