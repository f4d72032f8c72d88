/** The tag bar of the open note, its dropdown, and the tag cloud's filter pill. */
module TagsPanel {
  import opened Wrappers
  import opened Text

  type Id = string

  datatype Tag = Tag(id: Id, name: string, color: string)

  /** currentNoteForTags: the note's id and its tag list, which may be missing. */
  datatype NoteTags = NoteTags(noteId: Id, tags: Option<seq<Tag>>)

  function TagsOf(n: Option<NoteTags>): seq<Tag>
  {
    if n.Some? && n.value.tags.Some? then n.value.tags.value else []
  }

  predicate OnNote(tags: seq<Tag>, id: Id)
  {
    exists t :: t in tags && t.id == id
  }

  /** The dropdown's query: the input, trimmed and lower-cased. */
  function DropdownQuery(input: string): (q: string)
    ensures q == Lower(Trim(input))
  {
    Lower(Trim(input))
  }

  /** The dropdown's offer: known tags not on the note, and when there is
      a query, only those whose lower-cased name contains it. */
  function Available(all: seq<Tag>, onNote: seq<Tag>, query: string): (r: seq<Tag>)
    ensures forall t :: t in r <==> t in all && !OnNote(onNote, t.id) && (query == "" || Contains(Lower(t.name), query))
    ensures |r| <= |all|
  {
    if all == [] then []
    else
      var t := all[0];
      (if !OnNote(onNote, t.id) && (query == "" || Contains(Lower(t.name), query)) then [t] else []) +
      Available(all[1..], onNote, query)
  }

  /** The "+ Create" entry: a query no tag matches exactly, up to case. */
  predicate OffersCreate(all: seq<Tag>, query: string)
  {
    query != "" && forall t :: t in all ==> Lower(t.name) != query
  }

  /** The "No tags available" hint. */
  predicate ShowsEmptyHint(all: seq<Tag>, onNote: seq<Tag>, query: string)
  {
    Available(all, onNote, query) == [] && query == ""
  }

  /** Nothing offered is already on the note; the create entry never
      duplicates a known name; the empty hint and the create entry exclude each other. */
  lemma DropdownFacts(all: seq<Tag>, onNote: seq<Tag>, query: string)
    ensures forall t :: t in Available(all, onNote, query) ==> !OnNote(onNote, t.id)
    ensures OffersCreate(all, query) ==> forall t :: t in all ==> Lower(t.name) != query
    ensures !(ShowsEmptyHint(all, onNote, query) && OffersCreate(all, query))
    ensures query == "" ==> forall t :: t in all && !OnNote(onNote, t.id) ==> t in Available(all, onNote, query)
  {
  }

  /** An exact match, in any case, is offered for assignment instead of creation. */
  lemma ExactNameOffered(all: seq<Tag>, onNote: seq<Tag>, t: Tag)
    requires t in all && !OnNote(onNote, t.id) && Lower(t.name) != ""
    ensures t in Available(all, onNote, Lower(t.name)) && !OffersCreate(all, Lower(t.name))
  {
    assert StartsWith(Lower(t.name), Lower(t.name));
  }

  /** assignTag and createAndAssignTag: the tag goes on the end, starting a missing list. */
  function Pushed(n: NoteTags, t: Tag): (r: NoteTags)
    ensures r.noteId == n.noteId && r.tags == Some(TagsOf(Some(n)) + [t])
  {
    n.(tags := Some(TagsOf(Some(n)) + [t]))
  }

  /** The removal handler: note.tags.filter(t => t.id !== id). */
  function Removed(tags: seq<Tag>, id: Id): (r: seq<Tag>)
    ensures forall t :: t in r <==> t in tags && t.id != id
    ensures !OnNote(r, id)
  {
    if tags == [] then [] else (if tags[0].id != id then [tags[0]] else []) + Removed(tags[1..], id)
  }

  /** The filter works piecewise: the kept tags of a list are the kept
      tags of its front, then those of its back, so their order is kept. */
  lemma {:induction false} RemovedConcat(a: seq<Tag>, b: seq<Tag>, id: Id)
    ensures Removed(a + b, id) == Removed(a, id) + Removed(b, id)
  {
    if a == [] {
      assert a + b == b;
    } else {
      assert (a + b)[0] == a[0];
      assert (a + b)[1..] == a[1..] + b;
      RemovedConcat(a[1..], b, id);
    }
  }

  /** A list without the tag comes back unchanged, order included. */
  lemma {:induction false} RemovedAbsent(tags: seq<Tag>, id: Id)
    requires !OnNote(tags, id)
    ensures Removed(tags, id) == tags
  {
    if tags != [] {
      assert tags[0] in tags;
      assert !OnNote(tags[1..], id) by {
        forall t | t in tags[1..] ensures t.id != id {
          assert t in tags;
        }
      }
      RemovedAbsent(tags[1..], id);
      assert tags == [tags[0]] + tags[1..];
    }
  }

  /** So removing a tag from the middle keeps the tags before it, then those after it. */
  lemma {:induction false} RemovedKeepsOrder(before: seq<Tag>, t: Tag, after: seq<Tag>)
    requires !OnNote(before, t.id) && !OnNote(after, t.id)
    ensures Removed(before + [t] + after, t.id) == before + after
  {
    var front := before + [t];
    RemovedConcat(front, after, t.id);
    RemovedConcat(before, [t], t.id);
    RemovedAbsent(before, t.id);
    RemovedAbsent(after, t.id);
    assert [t][1..] == [];
    assert Removed([t], t.id) == [];
    assert Removed(front, t.id) == before;
  }

  /** Removing a tag just assigned gives back the list before it was, when it was not there yet. */
  lemma {:induction false} RemoveUndoesPush(tags: seq<Tag>, t: Tag)
    requires !OnNote(tags, t.id)
    ensures Removed(tags + [t], t.id) == tags
  {
    if tags == [] {
      assert [t][1..] == [];
    } else {
      assert (tags + [t])[1..] == tags[1..] + [t];
      RemoveUndoesPush(tags[1..], t);
      assert tags[0] in tags;
      assert tags == [tags[0]] + tags[1..];
    }
  }

  /** The name createAndAssignTag sends: its argument, else the trimmed input. */
  function CreateName(arg: string, input: string): string
  {
    if arg != "" then arg else Trim(input)
  }

  /** From the create entry the name arrives lower-cased; from Enter, trimmed
      but in the case it was typed. */
  lemma CreateNameSources(input: string)
    ensures CreateName(DropdownQuery(input), input) == (if Lower(Trim(input)) != "" then Lower(Trim(input)) else Trim(input))
    ensures CreateName("", input) == Trim(input)
  {
  }

  class TagBar {
    var allTags: seq<Tag>
    var note: Option<NoteTags>
    /** The cloud's active pill. */
    var activeFilter: Option<Id>
    var dropdownOpen: bool

    constructor()
      ensures allTags == [] && note.None? && activeFilter.None? && !dropdownOpen
    {
      allTags := [];
      note := None;
      activeFilter := None;
      dropdownOpen := false;
    }

    /** loadAllTags once the list has arrived. */
    method LoadAllTags(fetched: seq<Tag>)
      modifies this
      ensures allTags == fetched
      ensures note == old(note) && activeFilter == old(activeFilter) && dropdownOpen == old(dropdownOpen)
    {
      allTags := fetched;
    }

    /** loadNoteTags */
    method LoadNoteTags(n: NoteTags)
      modifies this
      ensures note == Some(n)
      ensures allTags == old(allTags) && activeFilter == old(activeFilter) && dropdownOpen == old(dropdownOpen)
    {
      note := Some(n);
    }

    /** toggleTagDropdown: closes an open dropdown; opens a closed one with
        the search input cleared, so it lists what Dropdown("") offers. */
    method ToggleDropdown()
      modifies this
      ensures dropdownOpen == !old(dropdownOpen)
      ensures allTags == old(allTags) && note == old(note) && activeFilter == old(activeFilter)
    {
      dropdownOpen := !dropdownOpen;
    }

    /** closeTagDropdown */
    method CloseDropdown()
      modifies this
      ensures !dropdownOpen
      ensures allTags == old(allTags) && note == old(note) && activeFilter == old(activeFilter)
    {
      dropdownOpen := false;
    }

    /** The dropdown as renderTagDropdownList draws it for the input text. */
    method Dropdown(input: string) returns (offered: seq<Tag>, create: bool, emptyHint: bool)
      ensures var q := DropdownQuery(input);
        offered == Available(allTags, TagsOf(note), q) && create == OffersCreate(allTags, q) &&
        emptyHint == ShowsEmptyHint(allTags, TagsOf(note), q)
    {
      var q := Lower(Trim(input));
      offered := Available(allTags, TagsOf(note), q);
      create := q != "" && forall t :: t in allTags ==> Lower(t.name) != q;
      emptyHint := offered == [] && q == "";
    }

    /** assignTag once the link is stored; link is the request, None without a
        note; refresh says whether loadAllTags runs after it. */
    method AssignTag(t: Tag) returns (link: Option<(Id, Id)>, refresh: bool)
      modifies this
      ensures refresh <==> link.Some?
      ensures old(note).None? ==> link.None? && note == old(note) && dropdownOpen == old(dropdownOpen)
      ensures old(note).Some? ==>
        link == Some((old(note).value.noteId, t.id)) && note == Some(Pushed(old(note).value, t)) && !dropdownOpen
      ensures allTags == old(allTags) && activeFilter == old(activeFilter)
    {
      if note.None? {
        return None, false;
      }
      link := Some((note.value.noteId, t.id));
      note := Some(Pushed(note.value, t));
      dropdownOpen := false;
      refresh := true;
    }

    /** createAndAssignTag; created is the tag the server answers with.
        request is the create call, link the follow-up link call, and refresh
        says whether loadAllTags runs after them. */
    method CreateAndAssign(arg: string, input: string, created: Tag)
      returns (request: Option<string>, link: Option<(Id, Id)>, refresh: bool)
      modifies this
      ensures refresh <==> request.Some?
      ensures CreateName(arg, input) == "" || old(note).None? ==>
        request.None? && link.None? && note == old(note) && dropdownOpen == old(dropdownOpen)
      ensures CreateName(arg, input) != "" && old(note).Some? ==>
        request == Some(CreateName(arg, input)) && link == Some((old(note).value.noteId, created.id)) &&
        note == Some(Pushed(old(note).value, created)) && !dropdownOpen
      ensures allTags == old(allTags) && activeFilter == old(activeFilter)
    {
      var name := if arg != "" then arg else Trim(input);
      if name == "" || note.None? {
        return None, None, false;
      }
      request := Some(name);
      link := Some((note.value.noteId, created.id));
      note := Some(Pushed(note.value, created));
      dropdownOpen := false;
      refresh := true;
    }

    /** The removal button of a tag on the note. shown is the note the tag
        bar was drawn for, which the handler keeps: the unlink names it, and
        once the reply is in, that note, without the tag, becomes the bar's
        note again, even if another note was loaded meanwhile. loadAllTags
        follows. */
    method RemoveTag(shown: NoteTags, id: Id) returns (unlink: (Id, Id), refresh: bool)
      modifies this
      ensures unlink == (shown.noteId, id) && refresh
      ensures note == Some(shown.(tags := Some(Removed(TagsOf(Some(shown)), id))))
      ensures allTags == old(allTags) && activeFilter == old(activeFilter) && dropdownOpen == old(dropdownOpen)
    {
      unlink, refresh := (shown.noteId, id), true;
      note := Some(shown.(tags := Some(Removed(TagsOf(Some(shown)), id))));
    }

    /** A pill click: the filter toggles, and reload, set either way, says the
        note list is fetched again for the current folder. The filter only marks
        the pill; that reload does not narrow the list to the tag. */
    method PillClick(id: Id) returns (reload: bool)
      modifies this
      ensures reload
      ensures activeFilter == (if old(activeFilter) == Some(id) then None else Some(id))
      ensures allTags == old(allTags) && note == old(note) && dropdownOpen == old(dropdownOpen)
    {
      if activeFilter == Some(id) {
        activeFilter := None;
      } else {
        activeFilter := Some(id);
      }
      reload := true;
    }
  }

  /** Two clicks on the same pill leave no filter, two on different pills the second. */
  lemma PillToggle(f: Option<Id>, a: Id, b: Id)
    ensures var once := if f == Some(a) then None else Some(a);
      (if once == Some(a) then None else Some(a)) == (if f == Some(a) then Some(a) else None)
    ensures var once := if f == Some(a) then None else Some(a);
      a != b ==> (if once == Some(b) then None else Some(b)) == Some(b)
  {
  }
}
