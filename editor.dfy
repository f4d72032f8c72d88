/** The editor script's module state and its event handlers. */
module Editor {
  import opened Wrappers
  import opened Text
  import opened EditorDoc
  import opened SlashMenu
  import NotesDb
  import Utils

  /** The note object loadNote receives; title and content may be missing. */
  datatype LoadedNote = LoadedNote(id: Id, title: Option<string>, content: Option<string>, parentId: Option<Id>, isPinned: int)

  /** What triggerSave hands to the change callback. */
  datatype SaveRequest = SaveRequest(id: Id, title: string, content: string)

  /** One entry of the breadcrumb bar: its text, whether it is the current
      note, and the note a click opens. */
  datatype CrumbItem = CrumbItem(text: string, current: bool, target: Option<Id>)

  function CrumbItems(crumbs: seq<NotesDb.Crumb>): (items: seq<CrumbItem>)
    ensures |items| == |crumbs|
  {
    seq(|crumbs|, i requires 0 <= i < |crumbs| =>
      CrumbItem(if crumbs[i].title == "" then "Untitled" else crumbs[i].title,
                i == |crumbs| - 1,
                if i == |crumbs| - 1 then None else Some(crumbs[i].id)))
  }

  /** Over the server's trail, the bar ends at the note itself; every
      earlier entry shows its ancestor's title ('Untitled' when blank) and
      opens that ancestor, and each entry opens the parent of the next. */
  lemma CrumbsFollowParents(notes: map<Id, NotesDb.Schema.NoteRow>, noteId: Id, crumbs: seq<NotesDb.Crumb>)
    requires NotesDb.Trail(notes, noteId, crumbs)
    ensures noteId !in notes ==> CrumbItems(crumbs) == []
    ensures noteId in notes ==>
      var items := CrumbItems(crumbs);
      var last := |items| - 1;
      items[last].current && items[last].target.None? &&
      items[last].text == (if notes[noteId].title == "" then "Untitled" else notes[noteId].title) &&
      (forall i :: 0 <= i < last ==>
        !items[i].current && items[i].target == Some(crumbs[i].id) &&
        items[i].text == (if notes[crumbs[i].id].title == "" then "Untitled" else notes[crumbs[i].id].title)) &&
      (forall i :: 0 < i < |items| ==> Some(items[i - 1].target.value) == notes[crumbs[i].id].parentId) &&
      (last > 0 ==> Some(items[last - 1].target.value) == notes[noteId].parentId)
  {
    var items := CrumbItems(crumbs);
    if noteId in notes {
      var last := |items| - 1;
      forall i | 0 <= i < last
        ensures !items[i].current && items[i].target == Some(crumbs[i].id)
        ensures items[i].text == (if notes[crumbs[i].id].title == "" then "Untitled" else notes[crumbs[i].id].title)
      {
        assert crumbs[i].title == notes[crumbs[i].id].title;
      }
      forall i | 0 < i < |items|
        ensures Some(items[i - 1].target.value) == notes[crumbs[i].id].parentId
      {
        assert items[i - 1].target == Some(crumbs[i - 1].id);
      }
    }
  }

  /** Whether a note's parent link shows the bar: `if (note.parent_id)`. */
  predicate HasParent(n: LoadedNote)
  {
    n.parentId.Some? && n.parentId.value != ""
  }

  /** The type picker's convertible items and the tag each converts to. */
  function PickerTag(blockType: string): (t: Option<TextTag>)
    ensures t.Some? ==> blockType == TagText(t.value) || (blockType, t.value) == ("code", Pre) || (blockType, t.value) == ("quote", Blockquote)
  {
    match blockType
    case "p" => Some(P)
    case "h1" => Some(H1)
    case "h2" => Some(H2)
    case "h3" => Some(H3)
    case "code" => Some(Pre)
    case "quote" => Some(Blockquote)
    case _ => None
  }

  /** The picker's items that go through insertBlock. */
  predicate IsComplex(blockType: string)
  {
    blockType in ["ul", "ol", "todo", "toggle", "callout", "hr", "page"]
  }

  /** A picker item is either converted or inserted, never both. */
  lemma PickerKindsDisjoint(blockType: string)
    ensures !(PickerTag(blockType).Some? && IsComplex(blockType))
  {
  }

  /** The toolbar's type button: typeMap[tag] || 'Text'. */
  function ToolbarLabel(tag: string): (r: string)
    ensures r == "Text" <==> tag !in ["h1", "h2", "h3", "pre", "blockquote"]
  {
    match tag
    case "h1" => "Heading 1"
    case "h2" => "Heading 2"
    case "h3" => "Heading 3"
    case "pre" => "Code"
    case "blockquote" => "Quote"
    case _ => "Text"
  }

  /** After a picker conversion the button names the chosen type, and
      distinct tags get distinct names, except that p and any unknown tag read "Text". */
  lemma ToolbarLabelNamesTag(a: TextTag, b: TextTag)
    ensures ToolbarLabel(TagText(a)) == ToolbarLabel(TagText(b)) ==> a == b
    ensures PickerTag("code") == Some(Pre) && ToolbarLabel(TagText(Pre)) == "Code"
    ensures PickerTag("quote") == Some(Blockquote) && ToolbarLabel(TagText(Blockquote)) == "Quote"
  {
  }

  /** What a type-picker click leaves: hidden says whether the picker and the toolbar were hidden. */
  datatype PickOutcome = PickOutcome(doc: Doc, menu: Menu, request: Option<PageRequest>, hidden: bool)

  /** The type-picker click handler. Convertible types go through
      convertBlock, which throws on a text node before the picker is
      hidden; the others anchor the slash range on the block and go
      through insertBlock, which empties it. */
  function Picked(d: Doc, m: Menu, blockType: string, openNote: Option<Id>): (r: PickOutcome)
    ensures CurrentBlock(d).None? ==> r == PickOutcome(d, m, None, false)
    ensures r.request.Some? ==> blockType == "page" && openNote.Some?
    ensures !IsComplex(blockType) ==> r.request.None? && r.menu == m
    ensures CurrentBlock(d).Some? && PickerTag(blockType).None? && !IsComplex(blockType) ==> r.doc == d && r.hidden
    ensures CurrentBlock(d).Some? && PickerTag(blockType).Some? ==>
      var kind := d.blocks[Find(d.blocks, CurrentBlock(d).value).value].kind;
      (kind == TextNode ==> r == PickOutcome(d, m, None, false)) &&
      (kind != TextNode ==> r.hidden && r.menu == m && r.request.None?)
  {
    var cur := CurrentBlock(d);
    if cur.None? then PickOutcome(d, m, None, false)
    else
      var node := cur.value;
      var kind := d.blocks[Find(d.blocks, node).value].kind;
      if PickerTag(blockType).Some? then
        if TagName(kind).None? then PickOutcome(d, m, None, false)
        else PickOutcome(Convert(d, node, PickerTag(blockType).value), m, None, true)
      else if IsComplex(blockType) then
        var c := Commit(d, node, blockType, openNote);
        PickOutcome(c.doc, m.(anchor := Some(node)), c.request, true)
      else PickOutcome(d, m, None, true)
  }

  /** A picker conversion keeps the block's content, unlike the slash
      command of the same type, which empties it first. */
  lemma PickKeepsContent(d: Doc, m: Menu, blockType: string, openNote: Option<Id>)
    requires CurrentBlock(d).Some? && PickerTag(blockType).Some?
    requires ConvertActs(d, CurrentBlock(d).value, PickerTag(blockType).value)
    ensures var i := Find(d.blocks, CurrentBlock(d).value).value;
      var r := Picked(d, m, blockType, openNote);
      r.hidden && r.menu == m && r.request.None? && r.doc.blocks[i].text == d.blocks[i].text &&
      r.doc.blocks[i].kind == TextBlock(PickerTag(blockType).value)
  {
  }

  /** A complex type from the picker empties the block just like the slash
      command, and leaves the slash range on the replaced block. */
  lemma PickComplexIsCommit(d: Doc, m: Menu, blockType: string, openNote: Option<Id>)
    requires CurrentBlock(d).Some? && IsComplex(blockType)
    ensures var r := Picked(d, m, blockType, openNote);
      var c := Inserted(d, Some(CurrentBlock(d).value), blockType, openNote);
      r.doc == c.doc && r.request == c.request && r.menu.anchor == CurrentBlock(d) && r.hidden
  {
    PickerKindsDisjoint(blockType);
  }

  /** setSaveStatus: the text and the classes of the status element. */
  datatype StatusView = StatusView(text: string, classes: seq<string>)

  function SaveStatus(status: string): (v: StatusView)
    ensures (v.text == "Ready") <==> status !in ["saving", "saved", "error"]
    ensures v.text == "Ready" ==> v.classes == []
  {
    match status
    case "saving" => StatusView("Saving...", ["saving"])
    case "saved" => StatusView("Saved", ["saved", "save-flash"])
    case "error" => StatusView("Save failed", ["error"])
    case _ => StatusView("Ready", [])
  }

  /** Each known status shows its own text; anything else reads Ready, with no class. */
  lemma SaveStatusDistinct(a: string, b: string)
    requires a in ["saving", "saved", "error"] && b in ["saving", "saved", "error"]
    ensures SaveStatus(a).text == SaveStatus(b).text ==> a == b
    ensures SaveStatus(a).text != "Ready" && SaveStatus(a).classes != []
  {
  }

  /** updateWordCount's text: the count, then "word", plural unless it is one. */
  function WordCountLabel(innerText: string): (r: string)
    ensures Utils.WordCount(innerText) == 1 ==> r == "1 word"
    ensures Utils.WordCount(innerText) != 1 ==> NumeralThen(r, Utils.WordCount(innerText), " words")
    ensures Utils.WordCount(innerText) == 0 ==> r == "0 words"
  {
    var n := Utils.WordCount(innerText);
    if n == 1 then "1 word"
    else
      NumeralThenSuffix(n, " words");
      assert n == 0 ==> NatToString(n) == [DigitChar(0)];
      NatToString(n) + " words"
  }

  /** triggerSave: only with a note open; the content is the editor's innerHTML. */
  function SaveFor(note: Option<LoadedNote>, title: string, d: Doc): Option<SaveRequest>
  {
    if note.Some? then Some(SaveRequest(note.value.id, title, Html(d.blocks))) else None
  }

  class Editor {
    /** The slash menu's items, in page order. */
    const catalog: seq<SlashItem>
    var doc: Doc
    var menu: Menu
    /** currentNote */
    var note: Option<LoadedNote>
    /** The title input's value. */
    var title: string
    var pinned: bool
    /** The breadcrumb bar: None while hidden. */
    var crumbs: Option<seq<CrumbItem>>
    /** The active editor is shown, not the empty state. */
    var shown: bool

    ghost predicate Valid()
      reads this
    {
      MenuOk(menu, catalog)
    }

    constructor(items: seq<SlashItem>)
      ensures Valid()
      ensures catalog == items && doc == Doc([], None, 0) && menu == Initial(items)
      ensures note.None? && title == "" && !pinned && crumbs.None? && !shown
    {
      catalog := items;
      doc := Doc([], None, 0);
      menu := Initial(items);
      note := None;
      title := "";
      pinned := false;
      crumbs := None;
      shown := false;
    }

    function OpenNoteId(): Option<Id>
      reads this
    {
      if note.Some? then Some(note.value.id) else None
    }

    /** loadNote: the note becomes current; a note with a parent asks for
        its breadcrumbs, one without hides the bar. The slash menu is kept. */
    method LoadNote(n: LoadedNote, parsed: seq<Part>) returns (fetchCrumbs: Option<Id>)
      requires Valid()
      modifies this
      ensures Valid()
      ensures note == Some(n) && shown && title == n.title.GetOr("") && pinned == (n.isPinned != 0)
      ensures doc == Loaded(old(doc), n.content, parsed)
      ensures fetchCrumbs == (if HasParent(n) then Some(n.id) else None)
      ensures crumbs == (if HasParent(n) then old(crumbs) else None)
      ensures menu == old(menu)
    {
      note := Some(n);
      shown := true;
      title := n.title.GetOr("");
      doc := Loaded(doc, n.content, parsed);
      pinned := n.isPinned != 0;
      if HasParent(n) {
        fetchCrumbs := Some(n.id);
      } else {
        fetchCrumbs := None;
        crumbs := None;
      }
    }

    /** loadBreadcrumbs once the trail has arrived. */
    method ShowBreadcrumbs(trail: seq<NotesDb.Crumb>)
      requires Valid()
      modifies this
      ensures Valid()
      ensures crumbs == Some(CrumbItems(trail))
      ensures doc == old(doc) && menu == old(menu) && note == old(note) && title == old(title)
      ensures pinned == old(pinned) && shown == old(shown)
    {
      crumbs := Some(CrumbItems(trail));
    }

    /** clearEditor */
    method ClearEditor()
      requires Valid()
      modifies this
      ensures Valid()
      ensures note.None? && !shown
      ensures doc == old(doc) && menu == old(menu) && title == old(title) && pinned == old(pinned) && crumbs == old(crumbs)
    {
      note := None;
      shown := false;
    }

    /** ensureContent */
    method EnsureContent()
      requires Valid()
      modifies this
      ensures Valid()
      ensures doc == EditorDoc.EnsureContent(old(doc))
      ensures menu == old(menu) && note == old(note) && title == old(title)
      ensures pinned == old(pinned) && crumbs == old(crumbs) && shown == old(shown)
    {
      doc := EditorDoc.EnsureContent(doc);
    }

    /** handleSlashInput, with showSlashMenu's loop. */
    method SlashInput()
      requires Valid()
      modifies this
      ensures Valid()
      ensures CurrentBlock(old(doc)).None? ==> menu == old(menu)
      ensures CurrentBlock(old(doc)).Some? ==>
        var i := Find(old(doc).blocks, CurrentBlock(old(doc)).value).value;
        menu == AfterInput(old(menu), catalog, old(doc).blocks[i].text, CurrentBlock(old(doc)).value)
      ensures doc == old(doc) && note == old(note) && title == old(title)
      ensures pinned == old(pinned) && crumbs == old(crumbs) && shown == old(shown)
    {
      var cur := CurrentBlock(doc);
      if cur.None? {
        return;
      }
      var text := doc.blocks[Find(doc.blocks, cur.value).value].text;
      if |text| >= 1 && text[0] == '/' {
        assert StartsWith(text, "/");
        var visible, count := CountMatches(catalog, Lower(text[1..]));
        if count == 0 {
          menu := menu.(open := false, visible := visible, anchor := Some(cur.value));
        } else {
          menu := menu.(open := true, visible := visible, active := 0, anchor := Some(cur.value));
        }
      } else {
        menu := Hide(menu);
      }
    }

    /** A click on a slash item: insertBlock(type), then hideSlashMenu. */
    method ClickSlashItem(k: nat) returns (request: Option<PageRequest>)
      requires Valid() && k < |catalog|
      modifies this
      ensures Valid()
      ensures var c := Inserted(old(doc), old(menu).anchor, catalog[k].blockType, old(OpenNoteId()));
        doc == c.doc && request == c.request
      ensures menu == Hide(old(menu))
      ensures note == old(note) && title == old(title)
      ensures pinned == old(pinned) && crumbs == old(crumbs) && shown == old(shown)
    {
      var c := Inserted(doc, menu.anchor, catalog[k].blockType, OpenNoteId());
      doc := c.doc;
      request := c.request;
      menu := Hide(menu);
    }

    /** handleEditorKeydown. While the menu is open every key goes to it,
        Enter commits the highlighted item, and the Enter rule does not run. */
    method Keydown(key: string, shift: bool) returns (request: Option<PageRequest>)
      requires Valid()
      modifies this
      ensures Valid()
      ensures old(menu).open && key == "Enter" ==>
        var c := Inserted(old(doc), old(menu).anchor, Highlighted(old(menu), catalog).blockType, old(OpenNoteId()));
        doc == c.doc && request == c.request && menu == Hide(old(menu))
      ensures old(menu).open && key != "Enter" ==> doc == old(doc) && request.None? && menu == Key(old(menu), key)
      ensures !old(menu).open ==>
        menu == old(menu) && request.None? && doc == (if key == "Enter" then EnterAt(old(doc), shift) else old(doc))
      ensures note == old(note) && title == old(title)
      ensures pinned == old(pinned) && crumbs == old(crumbs) && shown == old(shown)
    {
      request := None;
      if menu.open {
        if key == "Enter" {
          var item := Highlighted(menu, catalog);
          var c := Inserted(doc, menu.anchor, item.blockType, OpenNoteId());
          doc := c.doc;
          request := c.request;
          menu := Hide(menu);
        } else {
          KeyKeepsMenuOk(menu, catalog, key);
          menu := Key(menu, key);
        }
      } else if key == "Enter" {
        doc := EnterAt(doc, shift);
      }
    }

    /** A type-picker click, as Picked says. */
    method PickType(blockType: string) returns (request: Option<PageRequest>, hidden: bool)
      requires Valid()
      modifies this
      ensures Valid()
      ensures Picked(old(doc), old(menu), blockType, old(OpenNoteId())) == PickOutcome(doc, menu, request, hidden)
      ensures note == old(note) && title == old(title)
      ensures pinned == old(pinned) && crumbs == old(crumbs) && shown == old(shown)
    {
      var r := Picked(doc, menu, blockType, OpenNoteId());
      doc, menu, request, hidden := r.doc, r.menu, r.request, r.hidden;
    }

    /** The rest of insertPageBlock once the child note exists: the page
        block and a fresh paragraph replace the block, then a save. */
    method CompletePage(request: PageRequest, childId: Id, childTitle: string) returns (save: Option<SaveRequest>)
      requires Valid()
      modifies this
      ensures Valid()
      ensures doc == PagePlaced(old(doc), request.replace, childId, childTitle)
      ensures save == SaveFor(note, title, doc)
      ensures menu == old(menu) && note == old(note) && title == old(title)
      ensures pinned == old(pinned) && crumbs == old(crumbs) && shown == old(shown)
    {
      doc := PagePlaced(doc, request.replace, childId, childTitle);
      save := SaveFor(note, title, doc);
    }

    /** triggerSave */
    method TriggerSave() returns (save: Option<SaveRequest>)
      ensures save.Some? <==> note.Some?
      ensures save.Some? ==> save.value == SaveRequest(note.value.id, title, Html(doc.blocks))
    {
      save := SaveFor(note, title, doc);
    }
  }
}
