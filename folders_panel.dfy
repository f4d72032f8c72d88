/** The folder tree in the sidebar: the folder list, the active folder,
    and the prompts that create and rename folders. */
module FoldersPanel {
  import opened Wrappers
  import opened Text

  type Id = string

  datatype Folder = Folder(id: Id, name: string)

  /** A call setCurrentFolder(id, name) into the note list. */
  datatype FolderView = FolderView(id: Option<Id>, name: string)

  const AllNotes: string := "All Notes"

  /** createFolder's request for the prompt's answer (None when cancelled):
      a blank answer asks for nothing, any other is sent trimmed. */
  function CreateRequest(answer: Option<string>): (r: Option<string>)
    ensures r.Some? <==> answer.Some? && !AllSpace(answer.value)
    ensures r.Some? ==> r.value == Trim(answer.value) && r.value != "" && Trim(r.value) == r.value
  {
    if answer.None? || answer.value == "" || Trim(answer.value) == "" then None
    else
      TrimEmptyIff(answer.value);
      TrimOfTrimmed(Trim(answer.value));
      Some(Trim(answer.value))
  }

  /** finishRename: the trimmed input is sent when it is non-empty and differs from the name. */
  function RenameRequest(oldName: string, value: string): (r: Option<string>)
    ensures r.Some? ==> r.value == Trim(value) && r.value != "" && r.value != oldName
    ensures r.None? ==> Trim(value) == "" || Trim(value) == oldName
  {
    var newName := Trim(value);
    if newName != "" && newName != oldName then Some(newName) else None
  }

  /** Leaving the input as it was renames nothing, whenever the name has no surrounding space. */
  lemma UnchangedInputKeepsName(oldName: string)
    requires Trim(oldName) == oldName
    ensures RenameRequest(oldName, oldName).None?
  {
  }

  /** Escape puts the old name back into the input and blurs it, so the
      rename runs on the old name itself. */
  function EscapeRenameAsWritten(oldName: string): Option<string>
  {
    RenameRequest(oldName, oldName)
  }

  /** A name stored with a leading space is renamed by Escape. */
  lemma EscapeRenamesPaddedName()
    ensures EscapeRenameAsWritten(" Work") == Some("Work")
  {
    assert " Work"[1..] == "Work";
    assert !IsSpace('W') && !IsSpace('k');
    assert TrimStart("Work") == "Work";
    assert TrimStart(" Work") == "Work";
    TrimOfTrimmed("Work");
    assert Trim("Work") == TrimEnd("Work");
  }

  /** Escape cancels the rename. */
  function EscapeRename(oldName: string): (r: Option<string>)
    ensures r.None?
  {
    None
  }

  /** The corrected Escape agrees with the code wherever the code already
      cancels, and only there. */
  lemma EscapeRenameAgrees(oldName: string)
    ensures EscapeRename(oldName) == EscapeRenameAsWritten(oldName) <==> (Trim(oldName) == "" || Trim(oldName) == oldName)
  {
  }

  /** updateActiveStates: the "All Notes" button and each folder item. */
  datatype Highlight = Highlight(allNotes: bool, items: seq<bool>)

  function ActiveStates(folders: seq<Folder>, active: Option<Id>): (h: Highlight)
    ensures h.allNotes <==> active.None?
    ensures |h.items| == |folders|
    ensures forall i :: 0 <= i < |folders| ==> (h.items[i] <==> active == Some(folders[i].id))
  {
    Highlight(active.None?, seq(|folders|, i requires 0 <= i < |folders| => active == Some(folders[i].id)))
  }

  predicate DistinctIds(folders: seq<Folder>)
  {
    forall i, j :: 0 <= i < j < |folders| ==> folders[i].id != folders[j].id
  }

  /** With distinct ids at most one entry is highlighted, and exactly one
      when the active folder is on the list or there is none. */
  lemma OneHighlight(folders: seq<Folder>, active: Option<Id>)
    requires DistinctIds(folders)
    ensures var h := ActiveStates(folders, active);
      !(h.allNotes && exists i :: 0 <= i < |folders| && h.items[i]) &&
      (forall i, j :: 0 <= i < |folders| && 0 <= j < |folders| && h.items[i] && h.items[j] ==> i == j) &&
      (active.None? || (exists i :: 0 <= i < |folders| && folders[i].id == active.value) ==>
        h.allNotes || exists i :: 0 <= i < |folders| && h.items[i])
  {
  }

  function Without(folders: seq<Folder>, id: Id): (r: seq<Folder>)
    ensures forall f :: f in r <==> f in folders && f.id != id
  {
    if folders == [] then [] else (if folders[0].id != id then [folders[0]] else []) + Without(folders[1..], id)
  }

  /** The filter works piecewise: the kept entries of a list are the kept
      entries of its front, then those of its back, so their order is kept. */
  lemma {:induction false} WithoutConcat(a: seq<Folder>, b: seq<Folder>, id: Id)
    ensures Without(a + b, id) == Without(a, id) + Without(b, id)
  {
    if a == [] {
      assert a + b == b;
    } else {
      assert (a + b)[0] == a[0];
      assert (a + b)[1..] == a[1..] + b;
      WithoutConcat(a[1..], b, id);
    }
  }

  /** A list without that id comes back unchanged, order included. */
  lemma {:induction false} WithoutAbsent(folders: seq<Folder>, id: Id)
    requires forall f :: f in folders ==> f.id != id
    ensures Without(folders, id) == folders
  {
    if folders != [] {
      assert folders[0] in folders;
      WithoutAbsent(folders[1..], id);
      assert folders == [folders[0]] + folders[1..];
    }
  }

  /** folder.name = newName on the listed entry. */
  function Renamed(folders: seq<Folder>, id: Id, name: string): (r: seq<Folder>)
    ensures |r| == |folders|
    ensures forall i :: 0 <= i < |folders| ==> r[i] == (if folders[i].id == id then folders[i].(name := name) else folders[i])
  {
    seq(|folders|, i requires 0 <= i < |folders| => if folders[i].id == id then folders[i].(name := name) else folders[i])
  }

  /** folders.find(f => f.id === id)?.name: the name of the first folder with that id. */
  function FolderName(folders: seq<Folder>, id: Id): (r: Option<string>)
    ensures r.None? <==> forall i :: 0 <= i < |folders| ==> folders[i].id != id
    ensures r.Some? ==> exists i :: 0 <= i < |folders| && folders[i].id == id && folders[i].name == r.value &&
                                   (forall j :: 0 <= j < i ==> folders[j].id != id)
  {
    if folders == [] then None
    else if folders[0].id == id then Some(folders[0].name)
    else
      var r := FolderName(folders[1..], id);
      if r.Some? then
        var i :| 0 <= i < |folders[1..]| && folders[1..][i].id == id && folders[1..][i].name == r.value &&
                 (forall j :: 0 <= j < i ==> folders[1..][j].id != id);
        assert folders[i + 1] == folders[1..][i];
        r
      else r
  }

  /** The setCurrentFolder call after a drop: the active folder with its name; All Notes
      when none is active, and no name (undefined, shown as All Notes) when it has left the list. */
  function ActiveView(folders: seq<Folder>, active: Option<Id>): (v: FolderView)
    ensures v.id == active
    ensures active.None? ==> v.name == AllNotes
    ensures active.Some? && (forall i :: 0 <= i < |folders| ==> folders[i].id != active.value) ==> v.name == ""
    ensures active.Some? && (exists i :: 0 <= i < |folders| && folders[i].id == active.value) ==>
      Folder(active.value, v.name) in folders
  {
    FolderView(active, if active.None? then AllNotes else
      match FolderName(folders, active.value)
      case Some(n) => n
      case None => "")
  }

  class FolderTree {
    var folders: seq<Folder>
    var activeFolderId: Option<Id>

    constructor()
      ensures folders == [] && activeFolderId.None?
    {
      folders := [];
      activeFolderId := None;
    }

    method LoadFolders(fetched: seq<Folder>)
      modifies this
      ensures folders == fetched && activeFolderId == old(activeFolderId)
    {
      folders := fetched;
    }

    /** The "All Notes" button. */
    method ShowAllNotes() returns (view: FolderView)
      modifies this
      ensures activeFolderId.None? && view == FolderView(None, AllNotes) && folders == old(folders)
    {
      activeFolderId := None;
      view := FolderView(None, AllNotes);
    }

    /** A click on a folder item. */
    method FolderClick(f: Folder) returns (view: FolderView)
      modifies this
      ensures activeFolderId == Some(f.id) && view == FolderView(Some(f.id), f.name) && folders == old(folders)
    {
      activeFolderId := Some(f.id);
      view := FolderView(Some(f.id), f.name);
    }

    /** createFolder; created is the folder the server answers with. */
    method CreateFolder(answer: Option<string>, created: Folder) returns (request: Option<string>)
      modifies this
      ensures request == CreateRequest(answer)
      ensures folders == (if request.Some? then old(folders) + [created] else old(folders))
      ensures activeFolderId == old(activeFolderId)
    {
      request := CreateRequest(answer);
      var grown := folders + [created];
      folders := if request.Some? then grown else folders;
    }

    /** The rename input losing focus, from Enter, a click elsewhere, or Escape.
        reload says loadFolders runs afterwards, whether or not a rename was sent. */
    method FinishRename(f: Folder, value: string, escaped: bool) returns (request: Option<string>, reload: bool)
      modifies this
      ensures reload
      ensures request == (if escaped then EscapeRenameAsWritten(f.name) else RenameRequest(f.name, value))
      ensures folders == (if request.Some? then Renamed(old(folders), f.id, request.value) else old(folders))
      ensures activeFolderId == old(activeFolderId)
    {
      request := if escaped then EscapeRenameAsWritten(f.name) else RenameRequest(f.name, value);
      if request.Some? {
        folders := Renamed(folders, f.id, request.value);
      }
      reload := true;
    }

    /** A note dropped on a folder item; noteId is the dragged note's id, "" when the drag
        carried none. The note is moved there, then the active folder is shown again. */
    method DropNote(f: Folder, noteId: Id) returns (move: Option<(Id, Id)>, view: Option<FolderView>)
      ensures noteId == "" ==> move.None? && view.None?
      ensures noteId != "" ==> move == Some((noteId, f.id)) && view == Some(ActiveView(folders, activeFolderId))
    {
      if noteId == "" {
        return None, None;
      }
      move := Some((noteId, f.id));
      view := Some(ActiveView(folders, activeFolderId));
    }

    /** The context menu's delete; proceed is the confirmation and the request's success.
        Deleting the active folder goes back to all notes. */
    method DeleteFolder(f: Folder, proceed: bool) returns (view: Option<FolderView>)
      modifies this
      ensures !proceed ==> view.None? && folders == old(folders) && activeFolderId == old(activeFolderId)
      ensures proceed ==> folders == Without(old(folders), f.id)
      ensures proceed && old(activeFolderId) == Some(f.id) ==> activeFolderId.None? && view == Some(FolderView(None, AllNotes))
      ensures proceed && old(activeFolderId) != Some(f.id) ==> activeFolderId == old(activeFolderId) && view.None?
    {
      view := None;
      if !proceed {
        return;
      }
      folders := Without(folders, f.id);
      if activeFolderId == Some(f.id) {
        activeFolderId := None;
        view := Some(FolderView(None, AllNotes));
      }
    }
  }
}
