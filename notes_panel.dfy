/** The note list in the middle column: its cached cards, the selected
    note and folder, and the two resize handles beside the columns. */
module NotesPanel {
  import opened Wrappers
  import opened Ordering
  import NotesDb
  import NotesRoutes

  type Id = string

  /** A note as the list holds it. */
  datatype Card = Card(id: Id, title: string, content: string, isPinned: int, updatedAt: int)

  predicate Listed(cards: seq<Card>, id: Id)
  {
    exists i :: 0 <= i < |cards| && cards[i].id == id
  }

  // ---------------------------------------------------------------- selection after a load

  /** What loadNotes does about the selection. */
  datatype Selection = Select(id: Id) | Clear | Keep

  function AfterLoad(cards: seq<Card>, current: Option<Id>): (s: Selection)
    ensures s == Clear <==> cards == []
    ensures s.Select? ==> cards != [] && s.id == cards[0].id
    ensures s == Keep <==> current.Some? && Listed(cards, current.value)
  {
    if |cards| > 0 && current.None? then Select(cards[0].id)
    else if |cards| == 0 then Clear
    else if !Listed(cards, current.value) then Select(cards[0].id)
    else Keep
  }

  function Selected(s: Selection, current: Option<Id>): Option<Id>
  {
    match s
    case Select(id) => Some(id)
    case Clear => None
    case Keep => current
  }

  /** After a load the selection is on the list, and it is none only when the list is empty. */
  lemma LoadSelectsListed(cards: seq<Card>, current: Option<Id>)
    ensures var now := Selected(AfterLoad(cards, current), current);
      (now.None? <==> cards == []) && (now.Some? ==> Listed(cards, now.value))
    ensures current.Some? && Listed(cards, current.value) ==> Selected(AfterLoad(cards, current), current) == current
  {
  }

  // ---------------------------------------------------------------- the pinned-first sort

  /** The comparator `b.is_pinned - a.is_pinned` as an order: more pinned first. */
  predicate PinLe(a: Card, b: Card)
  {
    a.isPinned >= b.isPinned
  }

  /** The stable sort of notes.sort with that comparator. */
  function PinSorted(s: seq<Card>): (r: seq<Card>)
    ensures multiset(r) == multiset(s)
  {
    if s == [] then []
    else
      var t := PinSorted(s[1..]);
      InsertAdds(t, s[0], PinLe);
      assert s == [s[0]] + s[1..];
      Insert(t, s[0], PinLe)
  }

  /** The cards with one pin value, in list order. */
  function WithPin(s: seq<Card>, k: int): seq<Card>
  {
    if s == [] then [] else (if s[0].isPinned == k then [s[0]] else []) + WithPin(s[1..], k)
  }

  /** A pin group holds exactly the listed cards of that pin value. */
  lemma {:induction false} WithPinMembers(s: seq<Card>, k: int)
    ensures forall c :: c in WithPin(s, k) <==> c in s && c.isPinned == k
  {
    if s != [] {
      WithPinMembers(s[1..], k);
      assert s == [s[0]] + s[1..];
    }
  }

  lemma {:induction false} WithPinConcat(a: seq<Card>, b: seq<Card>, k: int)
    ensures WithPin(a + b, k) == WithPin(a, k) + WithPin(b, k)
  {
    if a == [] {
      assert a + b == b;
    } else {
      var h := if a[0].isPinned == k then [a[0]] else [];
      assert (a + b)[0] == a[0] && (a + b)[1..] == a[1..] + b;
      assert WithPin(a + b, k) == h + WithPin(a[1..] + b, k);
      WithPinConcat(a[1..], b, k);
      assert h + (WithPin(a[1..], k) + WithPin(b, k)) == (h + WithPin(a[1..], k)) + WithPin(b, k);
    }
  }

  /** Sorted most-pinned first, a permutation, and stable: the cards of each
      pin value keep their order. */
  lemma {:induction false} PinSortedFacts(s: seq<Card>)
    ensures SortedBy(PinSorted(s), PinLe)
    ensures multiset(PinSorted(s)) == multiset(s)
    ensures forall k :: WithPin(PinSorted(s), k) == WithPin(s, k)
  {
    if s != [] {
      var t := PinSorted(s[1..]);
      PinSortedFacts(s[1..]);
      assert TotalPreorder(PinLe);
      InsertSorted(t, s[0], PinLe);
      assert s == [s[0]] + s[1..];
      forall k
        ensures WithPin(PinSorted(s), k) == WithPin(s, k)
      {
        InsertWithPin(t, s[0], k);
        WithPinConcat([s[0]], t, k);
        WithPinConcat([s[0]], s[1..], k);
      }
    }
  }

  /** Inserting a card keeps it ahead of the cards of its own pin value. */
  lemma {:induction false} InsertWithPin(t: seq<Card>, x: Card, k: int)
    ensures WithPin(Insert(t, x, PinLe), k) == WithPin([x] + t, k)
  {
    var p := InsertPos(t, x, PinLe);
    var pre, post := t[..p], t[p..];
    assert Insert(t, x, PinLe) == pre + ([x] + post);
    assert t == pre + post;
    if x.isPinned == k {
      NoneWithPin(pre, k);
    }
    WithPinMove(pre, post, x, k);
  }

  /** Moving a card ahead of cards with none of its pin value leaves that pin value's run unchanged. */
  lemma WithPinMove(pre: seq<Card>, post: seq<Card>, x: Card, k: int)
    requires x.isPinned == k ==> WithPin(pre, k) == []
    ensures WithPin(pre + ([x] + post), k) == WithPin([x] + (pre + post), k)
  {
    var wx, wpre, wpost := WithPin([x], k), WithPin(pre, k), WithPin(post, k);
    assert WithPin(pre + ([x] + post), k) == wpre + (wx + wpost) by {
      WithPinConcat(pre, [x] + post, k);
      WithPinConcat([x], post, k);
    }
    assert WithPin([x] + (pre + post), k) == wx + (wpre + wpost) by {
      WithPinConcat(pre, post, k);
      WithPinConcat([x], pre + post, k);
    }
    if x.isPinned != k {
      assert [x][1..] == [] && WithPin([], k) == [];
      assert wx == [];
    }
  }

  /** Ahead of the insertion point every card is more pinned than the one inserted. */
  lemma NoneWithPin(pre: seq<Card>, k: int)
    requires forall i :: 0 <= i < |pre| ==> !PinLe(Card("", "", "", k, 0), pre[i])
    ensures WithPin(pre, k) == []
  {
    WithPinMembers(pre, k);
    NoMemberIsEmpty(WithPin(pre, k));
  }

  // ---------------------------------------------------------------- list edits

  /** findIndex(n => n.id === id), or -1. */
  function IndexOf(cards: seq<Card>, id: Id): (i: int)
    ensures -1 <= i < |cards|
    ensures i >= 0 ==> cards[i].id == id && forall j :: 0 <= j < i ==> cards[j].id != id
    ensures i == -1 ==> !Listed(cards, id)
  {
    if cards == [] then -1
    else if cards[0].id == id then 0
    else
      var j := IndexOf(cards[1..], id);
      ListedTail(cards, id);
      if j == -1 then -1 else j + 1
  }

  lemma ListedTail(cards: seq<Card>, id: Id)
    requires cards != []
    ensures Listed(cards, id) <==> cards[0].id == id || Listed(cards[1..], id)
  {
    if Listed(cards, id) && cards[0].id != id {
      var k :| 0 <= k < |cards| && cards[k].id == id;
      assert cards[1..][k - 1].id == id;
    }
    if Listed(cards[1..], id) {
      var k :| 0 <= k < |cards| - 1 && cards[1..][k].id == id;
      assert cards[k + 1].id == id;
    }
  }

  /** notes.filter(n => n.id !== id) */
  function Without(cards: seq<Card>, id: Id): (r: seq<Card>)
    ensures forall c :: c in r <==> c in cards && c.id != id
    ensures !Listed(r, id)
    ensures |r| <= |cards|
  {
    if cards == [] then []
    else (if cards[0].id != id then [cards[0]] else []) + Without(cards[1..], id)
  }

  /** The filter works piecewise: the kept entries of a list are the kept
      entries of its front, then those of its back, so their order is kept. */
  lemma {:induction false} WithoutConcat(a: seq<Card>, b: seq<Card>, id: Id)
    ensures Without(a + b, id) == Without(a, id) + Without(b, id)
  {
    if a == [] {
      assert a + b == b;
    } else {
      assert (a + b)[0] == a[0];
      assert (a + b)[1..] == a[1..] + b;
      WithoutConcat(a[1..], b, id);
    }
  }

  /** A list without that id comes back unchanged, order included. */
  lemma {:induction false} WithoutAbsent(cards: seq<Card>, id: Id)
    requires !Listed(cards, id)
    ensures Without(cards, id) == cards
  {
    if cards != [] {
      assert cards[0] in cards;
      WithoutAbsent(cards[1..], id);
      assert cards == [cards[0]] + cards[1..];
    }
  }

  /** onNoteChange on success: the note's entry takes the saved title, content and time. */
  function Saved(cards: seq<Card>, id: Id, title: string, content: string, updatedAt: int): (r: seq<Card>)
    ensures |r| == |cards|
    ensures IndexOf(cards, id) >= 0 ==> r[IndexOf(cards, id)] == cards[IndexOf(cards, id)].(title := title, content := content, updatedAt := updatedAt)
    ensures forall j :: 0 <= j < |cards| && j != IndexOf(cards, id) ==> r[j] == cards[j]
  {
    var i := IndexOf(cards, id);
    if i >= 0 then cards[i := cards[i].(title := title, content := content, updatedAt := updatedAt)] else cards
  }

  /** The new pin value on the selected entry. */
  function Repinned(cards: seq<Card>, id: Id, pinned: int): (r: seq<Card>)
    ensures |r| == |cards|
    ensures IndexOf(cards, id) >= 0 ==> r[IndexOf(cards, id)] == cards[IndexOf(cards, id)].(isPinned := pinned)
    ensures forall j :: 0 <= j < |cards| && j != IndexOf(cards, id) ==> r[j] == cards[j]
  {
    var i := IndexOf(cards, id);
    if i >= 0 then cards[i := cards[i].(isPinned := pinned)] else cards
  }

  /** The body createNote posts, as the route destructures it: a title, a
      content and the current folder (null when none), with no parentId key. */
  function CreateBody(folder: Option<Id>): NotesRoutes.CreateBody
  {
    NotesRoutes.CreateBody(Some("Untitled"), Some("<p><br></p>"), Some(folder), None)
  }

  /** The row the server stores for that body is a top-level, unpinned note
      of the current folder, titled 'Untitled' with one empty paragraph, so
      the listing of that folder, and the listing of all notes, include it. */
  lemma CreatedNoteListed(folder: Option<Id>, id: Id, now: int)
    ensures var b := CreateBody(folder);
      var row := NotesDb.NewNoteRow(id, b.title, b.content, b.folderId.GetOr(None), b.parentId.GetOr(None), now);
      row.id == id && row.title == "Untitled" && row.content == "<p><br></p>" &&
      row.folderId == folder && row.parentId.None? && row.isPinned == 0 &&
      NotesDb.Listed(folder, row) && NotesDb.Listed(None, row)
  {
  }

  class NotesList {
    var notes: seq<Card>
    var currentNoteId: Option<Id>
    var currentFolderId: Option<Id>
    /** The heading over the list. */
    var folderName: string
    /** The pin button's state. */
    var pinShown: bool
    /** The last status handed to setSaveStatus. */
    var saveStatus: string

    constructor()
      ensures notes == [] && currentNoteId.None? && currentFolderId.None?
      ensures folderName == "All Notes" && !pinShown && saveStatus == ""
    {
      notes := [];
      currentNoteId := None;
      currentFolderId := None;
      folderName := "All Notes";
      pinShown := false;
      saveStatus := "";
    }

    /** loadNotes once the list has arrived. */
    method LoadNotes(folderId: Option<Id>, fetched: seq<Card>) returns (sel: Selection)
      modifies this
      ensures sel == AfterLoad(fetched, old(currentNoteId))
      ensures notes == fetched && currentFolderId == folderId
      ensures currentNoteId == Selected(sel, old(currentNoteId))
      ensures folderName == old(folderName) && pinShown == old(pinShown) && saveStatus == old(saveStatus)
    {
      currentFolderId := folderId;
      notes := fetched;
      sel := AfterLoad(fetched, currentNoteId);
      currentNoteId := Selected(sel, currentNoteId);
    }

    /** selectNote: the selection moves before the note is fetched. */
    method SelectNote(id: Id)
      modifies this
      ensures currentNoteId == Some(id)
      ensures notes == old(notes) && currentFolderId == old(currentFolderId)
      ensures folderName == old(folderName) && pinShown == old(pinShown) && saveStatus == old(saveStatus)
    {
      currentNoteId := Some(id);
    }

    /** onNoteChange, before the request: the status shows the save in progress. */
    method StartSave()
      modifies this
      ensures saveStatus == "saving" && notes == old(notes)
      ensures currentNoteId == old(currentNoteId) && currentFolderId == old(currentFolderId)
      ensures folderName == old(folderName) && pinShown == old(pinShown)
    {
      saveStatus := "saving";
    }

    /** onNoteChange once the request has settled; reply is the saved note's updated_at,
        None when the request failed. Saves can overlap, so another save may have settled since
        this one started. */
    method FinishSave(id: Id, title: string, content: string, reply: Option<int>)
      modifies this
      ensures reply.Some? ==> saveStatus == "saved" && notes == Saved(old(notes), id, title, content, reply.value)
      ensures reply.None? ==> saveStatus == "error" && notes == old(notes)
      ensures currentNoteId == old(currentNoteId) && currentFolderId == old(currentFolderId)
      ensures folderName == old(folderName) && pinShown == old(pinShown)
    {
      if reply.Some? {
        saveStatus := "saved";
        notes := Saved(notes, id, title, content, reply.value);
      } else {
        saveStatus := "error";
      }
    }

    /** createNote, before the request: the body it posts, in the folder
        shown at the time of the click. */
    method CreateNoteRequest() returns (body: NotesRoutes.CreateBody)
      ensures body == CreateBody(currentFolderId)
    {
      body := CreateBody(currentFolderId);
    }

    /** createNote once the server has answered with the created note: it
        heads the list as it is by then, and is selected. */
    method CreateNote(created: Card)
      modifies this
      ensures notes == [created] + old(notes) && currentNoteId == Some(created.id)
      ensures currentFolderId == old(currentFolderId)
      ensures folderName == old(folderName) && pinShown == old(pinShown) && saveStatus == old(saveStatus)
    {
      notes := [created] + notes;
      currentNoteId := Some(created.id);
    }

    /** togglePin once the server has answered with the new pin value. */
    method TogglePin(pinned: int)
      modifies this
      ensures old(currentNoteId).None? ==> notes == old(notes) && pinShown == old(pinShown)
      ensures old(currentNoteId).Some? ==>
        notes == PinSorted(Repinned(old(notes), old(currentNoteId).value, pinned)) && pinShown == (pinned != 0)
      ensures currentNoteId == old(currentNoteId) && currentFolderId == old(currentFolderId)
      ensures folderName == old(folderName) && saveStatus == old(saveStatus)
    {
      if currentNoteId.None? {
        return;
      }
      notes := Repinned(notes, currentNoteId.value, pinned);
      pinShown := pinned != 0;
      notes := PinSorted(notes);
    }

    /** deleteCurrentNote; proceed is the confirmation and the delete request's success. */
    method DeleteCurrentNote(proceed: bool) returns (deleted: Option<Id>, sel: Selection)
      modifies this
      ensures old(currentNoteId).None? || !proceed ==>
        deleted.None? && sel == Keep && notes == old(notes) && currentNoteId == old(currentNoteId)
      ensures old(currentNoteId).Some? && proceed ==>
        deleted == old(currentNoteId) && notes == Without(old(notes), deleted.value) &&
        sel == (if notes == [] then Clear else Select(notes[0].id)) && currentNoteId == Selected(sel, None)
      ensures currentFolderId == old(currentFolderId)
      ensures folderName == old(folderName) && pinShown == old(pinShown) && saveStatus == old(saveStatus)
    {
      if currentNoteId.None? || !proceed {
        return None, Keep;
      }
      deleted := currentNoteId;
      notes := Without(notes, currentNoteId.value);
      currentNoteId := None;
      if notes != [] {
        sel := Select(notes[0].id);
        currentNoteId := Some(notes[0].id);
      } else {
        sel := Clear;
      }
    }

    /** setCurrentFolder: the heading changes, the selection is dropped, and the folder's notes are loaded. */
    method SetCurrentFolder(id: Option<Id>, name: string) returns (load: Option<Id>)
      modifies this
      ensures currentFolderId == id && load == id && currentNoteId.None?
      ensures folderName == (if name == "" then "All Notes" else name)
      ensures notes == old(notes) && pinShown == old(pinShown) && saveStatus == old(saveStatus)
    {
      currentFolderId := id;
      folderName := if name == "" then "All Notes" else name;
      currentNoteId := None;
      load := id;
    }
  }

  /** Deleting leaves neither the note on the list nor the selection on it. */
  lemma DeleteForgetsNote(cards: seq<Card>, id: Id)
    ensures var rest := Without(cards, id);
      !Listed(rest, id) && (rest != [] ==> rest[0].id != id) &&
      Selected(AfterLoad(rest, None), None) == (if rest == [] then None else Some(rest[0].id))
  {
  }

  /** Choosing a folder, then loading it, selects its first note. */
  lemma FolderLoadSelectsFirst(cards: seq<Card>)
    requires cards != []
    ensures AfterLoad(cards, None) == Select(cards[0].id)
  {
  }

  // ---------------------------------------------------------------- resize handles

  const SidebarMin: int := 100
  const SidebarMax: int := 400
  const NotelistMin: int := 100
  const NotelistMax: int := 500
  /** parseInt(...) || 250 */
  const FallbackWidth: int := 250

  function Clamp(lo: int, hi: int, w: int): (r: int)
    requires lo <= hi
    ensures lo <= r <= hi
    ensures lo <= w <= hi ==> r == w
    ensures w < lo ==> r == lo
    ensures w > hi ==> r == hi
  {
    if w < lo then lo else if w > hi then hi else w
  }

  /** A mouse move while dragging: collapse below half the minimum width, else a clamped width. */
  datatype Drag = Collapse | Resize(width: int)

  function Dragged(startWidth: int, startX: int, x: int, lo: int, hi: int): Drag
    requires lo <= hi
  {
    var w := startWidth + (x - startX);
    if 2 * w < lo then Collapse else Resize(Clamp(lo, hi, w))
  }

  /** Moving further right never gives a narrower panel,
      and collapsing happens exactly below half the minimum. */
  lemma DragMonotone(startWidth: int, startX: int, x1: int, x2: int, lo: int, hi: int)
    requires lo <= hi && x1 <= x2
    ensures Dragged(startWidth, startX, x1, lo, hi).Resize? ==>
      (Dragged(startWidth, startX, x2, lo, hi).Resize? &&
       Dragged(startWidth, startX, x1, lo, hi).width <= Dragged(startWidth, startX, x2, lo, hi).width)
    ensures Dragged(startWidth, startX, x1, lo, hi).Collapse? <==> 2 * (startWidth + x1 - startX) < lo
  {
  }

  class ResizeHandle {
    const minWidth: int
    const maxWidth: int
    var collapsed: bool
    var dragging: bool
    var startX: int
    var startWidth: int
    /** The width this handle last wrote to its variable, if any. */
    var width: Option<int>

    ghost predicate Valid()
      reads this
    {
      minWidth <= maxWidth && (width.Some? ==> minWidth <= width.value <= maxWidth)
    }

    /** collapsed is the state restored at start-up. */
    constructor(lo: int, hi: int, collapsedAtStart: bool)
      requires lo <= hi
      ensures Valid()
      ensures minWidth == lo && maxWidth == hi && collapsed == collapsedAtStart && !dragging && width.None?
    {
      minWidth, maxWidth := lo, hi;
      collapsed := collapsedAtStart;
      dragging := false;
      startX, startWidth := 0, FallbackWidth;
      width := None;
    }

    method DoubleClick()
      requires Valid()
      modifies this
      ensures Valid()
      ensures collapsed == !old(collapsed)
      ensures dragging == old(dragging) && startX == old(startX) && startWidth == old(startWidth) && width == old(width)
    {
      collapsed := !collapsed;
    }

    /** computed is parseInt of the variable's current value, None when that is NaN. */
    method MouseDown(x: int, computed: Option<int>)
      requires Valid()
      modifies this
      ensures Valid()
      ensures dragging && startX == x
      ensures startWidth == (if computed.None? || computed.value == 0 then FallbackWidth else computed.value)
      ensures collapsed == old(collapsed) && width == old(width)
    {
      dragging := true;
      startX := x;
      startWidth := if computed.None? || computed.value == 0 then FallbackWidth else computed.value;
    }

    method MouseMove(x: int)
      requires Valid()
      modifies this
      ensures Valid()
      ensures !old(dragging) ==> collapsed == old(collapsed) && width == old(width)
      ensures old(dragging) ==> match Dragged(startWidth, startX, x, minWidth, maxWidth)
        case Collapse => collapsed && width == old(width)
        case Resize(w) => !collapsed && width == Some(w)
      ensures dragging == old(dragging) && startX == old(startX) && startWidth == old(startWidth)
    {
      if !dragging {
        return;
      }
      var newWidth := startWidth + (x - startX);
      if 2 * newWidth < minWidth {
        collapsed := true;
        return;
      }
      collapsed := false;
      width := Some(Clamp(minWidth, maxWidth, newWidth));
    }

    method MouseUp()
      requires Valid()
      modifies this
      ensures Valid()
      ensures !dragging
      ensures collapsed == old(collapsed) && startX == old(startX) && startWidth == old(startWidth) && width == old(width)
    {
      dragging := false;
    }
  }
}
